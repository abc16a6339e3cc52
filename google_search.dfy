/** Answer selection in the search tool (plugins/google-search/src/lib.rs):
    from the parsed search response, pick the answer-box answer, else its
    snippet, else its first highlighted word, else the first organic result's
    snippet; a missing answer makes the final `unwrap` panic. */
module GoogleSearch {
  import opened Wrappers

  /** A parsed JSON value. Object keys are unique, so an object is a map. */
  datatype Json =
    | Null
    | Bool(b: bool)
    | Number(n: int)
    | Str(s: string)
    | Array(elems: seq<Json>)
    | Object(fields: map<string, Json>)

  /** `value.get(key)`: the member of an object, nothing for any other value. */
  function Get(v: Json, key: string): (r: Option<Json>)
    ensures r.Some? <==> v.Object? && key in v.fields
  {
    if v.Object? && key in v.fields then Some(v.fields[key]) else None
  }

  /** `value.get(i)`: the element of an array, nothing for any other value. */
  function GetAt(v: Json, i: nat): (r: Option<Json>)
    ensures r.Some? <==> v.Array? && i < |v.elems|
  {
    if v.Array? && i < |v.elems| then Some(v.elems[i]) else None
  }

  /** `value[key]`: like `get`, but `Null` where `get` finds nothing. */
  function Index(v: Json, key: string): Json
  {
    match Get(v, key)
    case Some(x) => x
    case None => Null
  }

  /** `value[i]`: like `get`, but `Null` where `get` finds nothing. */
  function IndexAt(v: Json, i: nat): Json
  {
    match GetAt(v, i)
    case Some(x) => x
    case None => Null
  }

  /** `value.as_str()`: the text of a string, nothing for any other value. */
  function AsStr(v: Json): (r: Option<string>)
    ensures r.Some? <==> v.Str?
  {
    if v.Str? then Some(v.s) else None
  }

  /** `option.and_then(|x| x.get(key))`. */
  function AndGet(o: Option<Json>, key: string): Option<Json>
  {
    match o
    case Some(v) => Get(v, key)
    case None => None
  }

  /** `option.and_then(|x| x.get(i))`. */
  function AndGetAt(o: Option<Json>, i: nat): Option<Json>
  {
    match o
    case Some(v) => GetAt(v, i)
    case None => None
  }

  /** The `if`/`else if` chain that binds `toret`, as the source writes it:
      presence is tested with `get`, the value read by indexing and `as_str`. */
  function SelectAnswer(res: Json): Option<string>
  {
    var box := Get(res, "answer_box");
    if AndGet(box, "answer").Some? then
      AsStr(Index(Index(res, "answer_box"), "answer"))
    else if AndGet(box, "snippet").Some? then
      AsStr(Index(Index(res, "answer_box"), "snippet"))
    else if AndGetAt(AndGet(box, "snippet_highlighted_words"), 0).Some? then
      AsStr(IndexAt(Index(Index(res, "answer_box"), "snippet_highlighted_words"), 0))
    else match Get(res, "organic_results")
      case Some(organic) =>
        (match GetAt(organic, 0)
         case Some(first) =>
           (match Get(first, "snippet")
            case Some(snippet) => AsStr(snippet)
            case None => None)
         case None => None)
      case None => None
  }

  /** What `call` returns once the response is parsed: the answer, or a panic in `unwrap`. */
  datatype SearchResult = Answer(text: string) | Panicked

  function Search(res: Json): (r: SearchResult)
    ensures r.Answer? <==> SelectAnswer(res).Some?
    ensures r.Answer? ==> r.text == SelectAnswer(res).value
  {
    match SelectAnswer(res)
    case Some(text) => Answer(text)
    case None => Panicked
  }

  // ---------------------------------------------------------------------------
  // The same selection as a list of priorities

  /** One step along a path into a JSON value. */
  datatype Step = Key(name: string) | Elem(i: nat)

  /** Follow a path with `get`; nothing as soon as a step finds nothing. */
  function Lookup(v: Json, path: seq<Step>): Option<Json>
    decreases |path|
  {
    if path == [] then Some(v)
    else
      var next := match path[0]
        case Key(k) => Get(v, k)
        case Elem(i) => GetAt(v, i);
      match next
      case Some(w) => Lookup(w, path[1..])
      case None => None
  }

  const AnswerPath: seq<Step> := [Key("answer_box"), Key("answer")]
  const SnippetPath: seq<Step> := [Key("answer_box"), Key("snippet")]
  const HighlightPath: seq<Step> := [Key("answer_box"), Key("snippet_highlighted_words"), Elem(0)]
  const OrganicPath: seq<Step> := [Key("organic_results"), Elem(0), Key("snippet")]

  /** The sources of an answer, highest priority first. */
  const Sources: seq<seq<Step>> := [AnswerPath, SnippetPath, HighlightPath, OrganicPath]

  /** The first source present decides: its text when it is a string, nothing
      otherwise; nothing when no source is present. */
  function FirstPresent(v: Json, sources: seq<seq<Step>>): Option<string>
  {
    if sources == [] then None
    else match Lookup(v, sources[0])
      case Some(x) => AsStr(x)
      case None => FirstPresent(v, sources[1..])
  }

  lemma LookupAnswer(res: Json)
    ensures Lookup(res, AnswerPath) == AndGet(Get(res, "answer_box"), "answer")
  {
    assert AnswerPath[1..][1..] == [];
  }

  lemma LookupSnippet(res: Json)
    ensures Lookup(res, SnippetPath) == AndGet(Get(res, "answer_box"), "snippet")
  {
    assert SnippetPath[1..][1..] == [];
  }

  lemma LookupHighlight(res: Json)
    ensures Lookup(res, HighlightPath) == AndGetAt(AndGet(Get(res, "answer_box"), "snippet_highlighted_words"), 0)
  {
    assert HighlightPath[1..][1..][1..] == [];
  }

  lemma LookupOrganic(res: Json)
    ensures Lookup(res, OrganicPath) ==
      match Get(res, "organic_results")
      case None => None
      case Some(organic) =>
        match GetAt(organic, 0)
        case None => None
        case Some(first) => Get(first, "snippet")
  {
    assert OrganicPath[1..][1..][1..] == [];
  }

  /** The source's chain is the priority list: the first present source
      decides, and `as_str` reads it. */
  lemma SelectionFollowsPriority(res: Json)
    ensures SelectAnswer(res) == FirstPresent(res, Sources)
  {
    LookupAnswer(res);
    LookupSnippet(res);
    LookupHighlight(res);
    LookupOrganic(res);
    var rest1 := [SnippetPath, HighlightPath, OrganicPath];
    var rest2 := [HighlightPath, OrganicPath];
    var rest3 := [OrganicPath];
    assert Sources[1..] == rest1 && rest1[1..] == rest2 && rest2[1..] == rest3 && rest3[1..] == [];
    if Lookup(res, AnswerPath).None? {
      assert FirstPresent(res, Sources) == FirstPresent(res, rest1);
      if Lookup(res, SnippetPath).None? {
        assert FirstPresent(res, rest1) == FirstPresent(res, rest2);
        if Lookup(res, HighlightPath).None? {
          assert FirstPresent(res, rest2) == FirstPresent(res, rest3);
          if Lookup(res, OrganicPath).None? {
            assert FirstPresent(res, rest3) == FirstPresent(res, []);
          }
        }
      }
    }
  }

  /** The first present source decides: the list yields an answer exactly when
      some source is present, every earlier one is absent, and that one is a string. */
  lemma {:induction false} FirstPresentDecides(v: Json, sources: seq<seq<Step>>)
    ensures FirstPresent(v, sources).Some? <==>
      exists k | 0 <= k < |sources| ::
        && Lookup(v, sources[k]).Some? && Lookup(v, sources[k]).value.Str?
        && forall j | 0 <= j < k :: Lookup(v, sources[j]).None?
    ensures FirstPresent(v, sources).Some? ==>
      exists k | 0 <= k < |sources| :: Lookup(v, sources[k]) == Some(Str(FirstPresent(v, sources).value))
  {
    if sources != [] {
      FirstPresentDecides(v, sources[1..]);
      if Lookup(v, sources[0]).None? {
        if FirstPresent(v, sources).Some? {
          var k :| 0 <= k < |sources[1..]| &&
            Lookup(v, sources[1..][k]).Some? && Lookup(v, sources[1..][k]).value.Str? &&
            forall j | 0 <= j < k :: Lookup(v, sources[1..][j]).None?;
          assert Lookup(v, sources[k + 1]).Some? && Lookup(v, sources[k + 1]).value.Str?;
          assert forall j | 0 <= j < k + 1 :: Lookup(v, sources[j]).None? by {
            forall j | 0 <= j < k + 1
              ensures Lookup(v, sources[j]).None?
            {
              if j > 0 {
                assert sources[j] == sources[1..][j - 1];
              }
            }
          }
          var k' :| 0 <= k' < |sources[1..]| && Lookup(v, sources[1..][k']) == Some(Str(FirstPresent(v, sources).value));
          assert sources[k' + 1] == sources[1..][k'];
        } else {
          forall k | 0 <= k < |sources| && Lookup(v, sources[k]).Some? && Lookup(v, sources[k]).value.Str?
            ensures exists j | 0 <= j < k :: Lookup(v, sources[j]).Some?
          {
            assert k > 0;
            assert sources[1..][k - 1] == sources[k];
            assert !forall j | 0 <= j < k - 1 :: Lookup(v, sources[1..][j]).None?;
            var j :| 0 <= j < k - 1 && Lookup(v, sources[1..][j]).Some?;
            assert sources[j + 1] == sources[1..][j];
          }
        }
      } else if FirstPresent(v, sources).Some? {
        assert Lookup(v, sources[0]).value.Str?;
      } else {
        forall k | 0 <= k < |sources| && Lookup(v, sources[k]).Some? && Lookup(v, sources[k]).value.Str?
          ensures exists j | 0 <= j < k :: Lookup(v, sources[j]).Some?
        {
          assert k > 0;
        }
      }
    }
  }

  // ---------------------------------------------------------------------------
  // Properties of the selection

  /** A present `answer_box.answer` decides the result alone. */
  lemma AnswerDecides(res: Json, answer: Json)
    requires Lookup(res, AnswerPath) == Some(answer)
    ensures SelectAnswer(res) == AsStr(answer)
  {
    LookupAnswer(res);
  }

  /** Without an answer, the snippet comes next, then the first highlighted word. */
  lemma SnippetThenHighlight(res: Json)
    requires Lookup(res, AnswerPath).None?
    ensures Lookup(res, SnippetPath).Some? ==> SelectAnswer(res) == AsStr(Lookup(res, SnippetPath).value)
    ensures Lookup(res, SnippetPath).None? && Lookup(res, HighlightPath).Some? ==>
      SelectAnswer(res) == AsStr(Lookup(res, HighlightPath).value)
  {
    LookupAnswer(res);
    LookupSnippet(res);
    LookupHighlight(res);
  }

  /** The response with its organic results removed. */
  function WithoutOrganic(res: Json): Json
  {
    if res.Object? then Object(res.fields - {"organic_results"}) else res
  }

  /** Organic results are consulted only when none of the three answer-box
      sources is present: otherwise removing them changes nothing. */
  lemma OrganicOnlyAsLastResort(res: Json)
    requires Lookup(res, AnswerPath).Some? || Lookup(res, SnippetPath).Some? || Lookup(res, HighlightPath).Some?
    ensures SelectAnswer(res) == SelectAnswer(WithoutOrganic(res))
  {
    assert Get(WithoutOrganic(res), "answer_box") == Get(res, "answer_box");
    LookupAnswer(res);
    LookupSnippet(res);
    LookupHighlight(res);
  }

  /** With no answer-box source, the first organic result's snippet decides;
      missing organic results, an empty list or a first result without a
      snippet give nothing. */
  lemma OrganicFallback(res: Json)
    requires Lookup(res, AnswerPath).None? && Lookup(res, SnippetPath).None? && Lookup(res, HighlightPath).None?
    ensures SelectAnswer(res) == match Lookup(res, OrganicPath)
      case Some(snippet) => AsStr(snippet)
      case None => None
  {
    LookupAnswer(res);
    LookupSnippet(res);
    LookupHighlight(res);
    LookupOrganic(res);
  }

  /** A present answer that is not a string is not skipped: whatever the
      later sources hold, the selection fails and `unwrap` panics. */
  lemma NonStringBlocks(res: Json)
    requires Lookup(res, AnswerPath).Some? && !Lookup(res, AnswerPath).value.Str?
    ensures SelectAnswer(res).None? && Search(res) == Panicked
  {
    AnswerDecides(res, Lookup(res, AnswerPath).value);
  }

  /** With no answer-box source and an empty organic result list there is no
      answer, and `unwrap` panics. */
  lemma EmptyOrganicPanics(res: Json)
    requires Lookup(res, AnswerPath).None? && Lookup(res, SnippetPath).None? && Lookup(res, HighlightPath).None?
    requires Get(res, "organic_results") == Some(Array([]))
    ensures Search(res) == Panicked
  {
    OrganicFallback(res);
  }

  /** A lone organic snippet is the answer. */
  lemma OrganicSnippetAnswers()
    ensures Search(Object(map["organic_results" := Array([Object(map["snippet" := Str("74")])])])) == Answer("74")
  {
  }
}
