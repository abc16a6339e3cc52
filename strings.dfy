/** String helpers shared by the plugins: substring search (Rust's
    `str::contains`) and splitting on one character (Rust's `str::split`). */
module Strings {

  /** `pat` occurs in `s` starting at index `i`. */
  predicate OccursAt(s: string, pat: string, i: nat)
  {
    i + |pat| <= |s| && s[i..i + |pat|] == pat
  }

  /** `s.contains(pat)` for a string pattern. */
  predicate Contains(s: string, pat: string)
  {
    exists i: nat | i <= |s| :: OccursAt(s, pat, i)
  }

  /** Every slice of `s` is contained in `s`. */
  lemma SliceContained(s: string, i: nat, j: nat)
    requires i <= j <= |s|
    ensures Contains(s, s[i..j])
  {
    assert OccursAt(s, s[i..j], i);
  }

  /** Containment is transitive. */
  lemma ContainsTransitive(a: string, b: string, c: string)
    requires Contains(a, b) && Contains(b, c)
    ensures Contains(a, c)
  {
    var i: nat :| i <= |a| && OccursAt(a, b, i);
    var j: nat :| j <= |b| && OccursAt(b, c, j);
    forall k | 0 <= k < |c|
      ensures a[i + j..i + j + |c|][k] == c[k]
    {
      assert c[k] == b[j + k] == a[i + j + k];
    }
    assert OccursAt(a, c, i + j);
  }

  /** A pattern whose first character never occurs in `s` is not contained in `s`. */
  lemma NotContainedWithoutHead(s: string, pat: string)
    requires |pat| > 0 && pat[0] !in s
    ensures !Contains(s, pat)
  {
    forall i: nat | i <= |s|
      ensures !OccursAt(s, pat, i)
    {
      if i + |pat| <= |s| {
        assert s[i..i + |pat|][0] == s[i];
      }
    }
  }

  function Last<T>(xs: seq<T>): T
    requires |xs| > 0
  {
    xs[|xs| - 1]
  }

  /** `s.split(c)`: the pieces of `s` between occurrences of `c`; there is
      always at least one piece, and one more than there are separators. */
  function Split(s: string, c: char): (pieces: seq<string>)
    ensures |pieces| >= 1
  {
    if s == [] then [[]]
    else
      var rest := Split(s[1..], c);
      if s[0] == c then [[]] + rest
      else [[s[0]] + rest[0]] + rest[1..]
  }

  /** The inverse of `Split`: the pieces glued back with the separator. */
  function Join(pieces: seq<string>, c: char): string
    requires |pieces| >= 1
  {
    if |pieces| == 1 then pieces[0]
    else pieces[0] + [c] + Join(pieces[1..], c)
  }

  /** How `Split` takes apart a non-empty string: by its first character. */
  lemma SplitCons(s: string, c: char)
    requires s != []
    ensures s[0] == c ==> Split(s, c) == [[]] + Split(s[1..], c)
    ensures s[0] != c ==> Split(s, c) == [[s[0]] + Split(s[1..], c)[0]] + Split(s[1..], c)[1..]
  {
  }

  /** Without a separator there is a single piece, the string itself. */
  lemma {:induction false} SplitWithoutSeparator(s: string, c: char)
    requires c !in s
    ensures Split(s, c) == [s]
  {
    if s != [] {
      assert c !in s[1..] by {
        forall k | 0 <= k < |s| - 1 ensures s[1..][k] != c {
          assert s[1..][k] == s[k + 1];
        }
      }
      SplitWithoutSeparator(s[1..], c);
      assert s == [s[0]] + s[1..];
    }
  }

  /** Joining the pieces `Split` builds for `[x] + t` from the pieces of `t`. */
  lemma JoinCons(x: char, t: string, rest: seq<string>, c: char)
    requires |rest| >= 1 && Join(rest, c) == t
    ensures x == c ==> Join([[]] + rest, c) == [x] + t
    ensures x != c ==> Join([[x] + rest[0]] + rest[1..], c) == [x] + t
  {
    if x == c {
      assert ([[]] + rest)[1..] == rest;
    } else if |rest| > 1 {
      var pieces := [[x] + rest[0]] + rest[1..];
      assert pieces[1..] == rest[1..];
      assert Join(pieces, c) == ([x] + rest[0]) + [c] + Join(rest[1..], c);
    }
  }

  /** Splitting and joining again gives back the string. */
  lemma {:induction false} JoinSplit(s: string, c: char)
    ensures Join(Split(s, c), c) == s
  {
    if s != [] {
      JoinSplit(s[1..], c);
      JoinCons(s[0], s[1..], Split(s[1..], c), c);
      SplitCons(s, c);
      assert s == [s[0]] + s[1..];
    }
  }

  /** No piece holds the separator. */
  lemma {:induction false} SplitPiecesFree(s: string, c: char)
    ensures forall k | 0 <= k < |Split(s, c)| :: c !in Split(s, c)[k]
  {
    if s != [] {
      var rest := Split(s[1..], c);
      var pieces := Split(s, c);
      SplitPiecesFree(s[1..], c);
      SplitCons(s, c);
      if s[0] != c {
        forall k | 0 <= k < |pieces|
          ensures c !in pieces[k]
        {
          if k == 0 {
            assert pieces[0] == [s[0]] + rest[0];
          } else {
            assert pieces[k] == rest[k];
          }
        }
      } else {
        forall k | 0 <= k < |pieces|
          ensures c !in pieces[k]
        {
          if k > 0 {
            assert pieces[k] == rest[k - 1];
          }
        }
      }
    }
  }

  /** `r` is what follows the last `c` in `s` (all of `s` when `c` does not occur):
      a suffix of `s` free of `c` that is either all of `s` or preceded by `c`. */
  ghost predicate IsLastPiece(r: string, s: string, c: char)
  {
    |r| <= |s| && r == s[|s| - |r|..] && c !in r && (|r| < |s| ==> s[|s| - |r| - 1] == c)
  }

  /** At most one string is the last piece. */
  lemma LastPieceUnique(r1: string, r2: string, s: string, c: char)
    requires IsLastPiece(r1, s, c) && IsLastPiece(r2, s, c)
    ensures r1 == r2
  {
  }

  /** A last piece that is not the whole string stays the last piece when a character is put in front. */
  lemma LastPiecePrepend(x: char, t: string, r: string, c: char)
    requires IsLastPiece(r, t, c) && |r| < |t|
    ensures IsLastPiece(r, [x] + t, c)
  {
    var s := [x] + t;
    assert s[|s| - |r|..] == t[|t| - |r|..];
    assert s[|s| - |r| - 1] == t[|t| - |r| - 1];
  }

  /** A separator put in front of a separator-free string makes that string the last piece. */
  lemma LastPieceAfterSeparator(t: string, c: char)
    requires c !in t
    ensures IsLastPiece(t, [c] + t, c)
  {
    assert ([c] + t)[1..] == t;
  }

  /** The last piece of `[x] + t` from the last piece `r` of `t`, given how many pieces `t` has. */
  lemma LastPieceCons(x: char, t: string, r: string, c: char, pieces: nat)
    requires IsLastPiece(r, t, c) && pieces >= 1
    requires pieces == 1 ==> r == t
    requires c !in t ==> pieces == 1
    ensures IsLastPiece(if x == c || pieces > 1 then r else [x] + t, [x] + t, c)
  {
    if x == c || pieces > 1 {
      if |r| < |t| {
        LastPiecePrepend(x, t, r, c);
      } else {
        assert r == t;
        LastPieceAfterSeparator(t, c);
      }
    }
  }

  /** The last piece `Split` yields for a non-empty string, from that of its tail. */
  lemma LastOfSplitCons(s: string, c: char)
    requires s != []
    ensures Last(Split(s, c)) ==
      if s[0] == c || |Split(s[1..], c)| > 1 then Last(Split(s[1..], c)) else [s[0]] + s[1..]
  {
    SplitCons(s, c);
    if s[0] != c && |Split(s[1..], c)| == 1 {
      JoinSplit(s[1..], c);
    }
  }

  /** `s.split(c).last()` is the last piece of `s`. */
  lemma {:induction false} SplitLast(s: string, c: char)
    ensures IsLastPiece(Last(Split(s, c)), s, c)
  {
    if s != [] {
      var t := s[1..];
      var rest := Split(t, c);
      SplitLast(t, c);
      if |rest| == 1 {
        JoinSplit(t, c);
      }
      if c !in t {
        SplitWithoutSeparator(t, c);
      }
      LastPieceCons(s[0], t, Last(rest), c, |rest|);
      LastOfSplitCons(s, c);
      assert s == [s[0]] + t;
    }
  }

  /** The last piece of a prefix of `s` is a piece of `s`. */
  lemma LastPieceOfPrefixContained(s: string, t: string, r: string, c: char)
    requires |t| <= |s| && t == s[..|t|] && IsLastPiece(r, t, c)
    ensures Contains(s, r)
  {
    assert r == t[|t| - |r|..];
    assert r == s[|t| - |r|..|t|];
    SliceContained(s, |t| - |r|, |t|);
  }

  /** The last piece after appending a separator and a separator-free tail is that tail. */
  lemma LastPieceOfAppend(a: string, c: char, b: string)
    requires c !in b
    ensures IsLastPiece(b, a + [c] + b, c)
  {
    var s := a + [c] + b;
    assert s[|s| - |b|..] == b;
    assert s[|s| - |b| - 1] == c;
  }
}
