/**
 * The handful of Python `str` operations the gear relies on, with their
 * Python semantics: `sub in s`, `s.startswith(p)`, `s.split(sep)`,
 * `sep.join(parts)`, `s.replace(old, new)` and `s.strip(c)`. Every split
 * the gear makes is on a single character, so `Split` takes one; `SplitAt`
 * splits on a longer separator and only serves to characterise `Replace`.
 * Strings are sequences of characters; no encoding is involved.
 */
module Text {

  /** `s.startswith(p)` */
  predicate StartsWith(s: string, p: string) {
    |p| <= |s| && s[..|p|] == p
  }

  /** `s.endswith(p)` */
  predicate EndsWith(s: string, p: string) {
    |p| <= |s| && s[|s| - |p|..] == p
  }

  /** `sub in s`: `sub` occurs as a contiguous slice of `s` (the empty string occurs everywhere). */
  predicate Contains(s: string, sub: string)
    decreases |s|
  {
    StartsWith(s, sub) || (|s| > 0 && Contains(s[1..], sub))
  }

  /** `sep.join(parts)` */
  function Join(parts: seq<string>, sep: string): string
  {
    if |parts| == 0 then ""
    else if |parts| == 1 then parts[0]
    else parts[0] + sep + Join(parts[1..], sep)
  }

  /** `s.split(c)` for a one-character separator: cut at every `c`. There is always at least one piece, and the first is a prefix of `s`. */
  function Split(s: string, c: char): (r: seq<string>)
    ensures |r| >= 1
    ensures r[0] <= s
    decreases |s|
  {
    if |s| == 0 then [s]
    else if s[0] == c then [""] + Split(s[1..], c)
    else
      var t := Split(s[1..], c);
      [[s[0]] + t[0]] + t[1..]
  }

  /**
   * `s.split(sep)` for a non-empty separator of any length: cut at every
   * leftmost, non-overlapping occurrence of `sep`.
   */
  function SplitAt(s: string, sep: string): (r: seq<string>)
    requires |sep| > 0
    ensures |r| >= 1
    decreases |s|
  {
    if |s| < |sep| then [s]
    else if s[..|sep|] == sep then [""] + SplitAt(s[|sep|..], sep)
    else
      var t := SplitAt(s[1..], sep);
      [[s[0]] + t[0]] + t[1..]
  }

  /** `s.replace(pat, rep)` for a non-empty pattern, scanning left to right. */
  function Replace(s: string, pat: string, rep: string): string
    requires |pat| > 0
    decreases |s|
  {
    if |s| < |pat| then s
    else if s[..|pat|] == pat then rep + Replace(s[|pat|..], pat, rep)
    else [s[0]] + Replace(s[1..], pat, rep)
  }

  /** `s.lstrip(c)`: drop every leading `c`, and nothing else. */
  function StripLeft(s: string, c: char): (r: string)
    ensures |r| <= |s| && r == s[|s| - |r|..]
    ensures forall k :: 0 <= k < |s| - |r| ==> s[k] == c
    ensures |r| > 0 ==> r[0] != c
    decreases |s|
  {
    if |s| > 0 && s[0] == c then StripLeft(s[1..], c) else s
  }

  /** `s.rstrip(c)`: drop every trailing `c`, and nothing else. */
  function StripRight(s: string, c: char): (r: string)
    ensures |r| <= |s| && r == s[..|r|]
    ensures forall k :: |r| <= k < |s| ==> s[k] == c
    ensures |r| > 0 ==> r[|r| - 1] != c
    decreases |s|
  {
    if |s| > 0 && s[|s| - 1] == c then StripRight(s[..|s| - 1], c) else s
  }

  /** `s.strip(c)` */
  function Strip(s: string, c: char): string {
    StripRight(StripLeft(s, c), c)
  }

  /** Stripping a text that neither starts nor ends with `c`, followed by one `c`, gives the text. */
  lemma StripOneTrailing(s: string, c: char)
    requires |s| > 0 && s[0] != c && s[|s| - 1] != c
    ensures Strip(s + [c], c) == s
  {
    var t := s + [c];
    assert StripLeft(t, c) == t;
    assert t[..|t| - 1] == s;
  }

  // ---------------------------------------------------------------------
  // Split and Join

  /** Joining the pieces of a split with the same separator gives back the string. */
  lemma {:induction false} JoinSplit(s: string, c: char)
    ensures Join(Split(s, c), [c]) == s
    decreases |s|
  {
    if |s| > 0 {
      JoinSplit(s[1..], c);
      var t := Split(s[1..], c);
      if s[0] == c {
        assert ([""] + t)[1..] == t;
      } else {
        JoinCons(s[0], t, [c]);
      }
      assert s == [s[0]] + s[1..];
    }
  }

  /** Prepending a character to the first piece prepends it to the joined string. */
  lemma JoinCons(c: char, t: seq<string>, sep: string)
    requires |t| >= 1
    ensures Join([[c] + t[0]] + t[1..], sep) == [c] + Join(t, sep)
  {
    var u := [[c] + t[0]] + t[1..];
    if |t| > 1 {
      assert u[1..] == t[1..];
    }
  }

  /**
   * `Replace` is Python's documented equivalence
   * `s.replace(pat, rep) == rep.join(s.split(pat))`: every leftmost
   * occurrence is replaced and the text between occurrences is kept.
   */
  lemma {:induction false} ReplaceIsJoinOfSplit(s: string, pat: string, rep: string)
    requires |pat| > 0
    ensures Replace(s, pat, rep) == Join(SplitAt(s, pat), rep)
    decreases |s|
  {
    if |s| < |pat| {
    } else if s[..|pat|] == pat {
      ReplaceIsJoinOfSplit(s[|pat|..], pat, rep);
      var t := SplitAt(s[|pat|..], pat);
      assert ([""] + t)[1..] == t;
    } else {
      ReplaceIsJoinOfSplit(s[1..], pat, rep);
      JoinCons(s[0], SplitAt(s[1..], pat), rep);
    }
  }

  /** Text in which the pattern does not occur is left unchanged by `Replace`. */
  lemma {:induction false} ReplaceAbsent(s: string, pat: string, rep: string)
    requires |pat| > 0
    requires !Contains(s, pat)
    ensures Replace(s, pat, rep) == s
    decreases |s|
  {
    if |s| < |pat| {
    } else {
      assert |s| > 0;
      ReplaceAbsent(s[1..], pat, rep);
      assert s == [s[0]] + s[1..];
    }
  }

  /** If the pattern occurs, the replacement occurs in the result. */
  lemma {:induction false} ReplacePresent(s: string, pat: string, rep: string)
    requires |pat| > 0
    requires Contains(s, pat)
    ensures Contains(Replace(s, pat, rep), rep)
    decreases |s|
  {
    if |s| >= |pat| && s[..|pat|] == pat {
      PrefixContains(rep, Replace(s[|pat|..], pat, rep));
    } else {
      assert !StartsWith(s, pat);
      ReplacePresent(s[1..], pat, rep);
      var r := Replace(s, pat, rep);
      assert r == [s[0]] + Replace(s[1..], pat, rep);
      assert r[1..] == Replace(s[1..], pat, rep);
    }
  }

  /** A string that starts `s` agrees with `s` at each of its positions. */
  lemma StartsWithAt(s: string, p: string, i: nat)
    requires StartsWith(s, p) && i < |p|
    ensures p[i] == s[i]
  {
    assert p[i] == s[..|p|][i];
  }

  /** A string occurs in any string it starts. */
  lemma PrefixContains(p: string, rest: string)
    ensures Contains(p + rest, p)
  {
    assert (p + rest)[..|p|] == p;
  }

  /** A character that is in neither the text nor the replacement is not in the result. */
  lemma {:induction false} ReplaceKeepsCharOut(s: string, pat: string, rep: string, c: char)
    requires |pat| > 0
    requires c !in s && c !in rep
    ensures c !in Replace(s, pat, rep)
    decreases |s|
  {
    if |s| < |pat| {
    } else if s[..|pat|] == pat {
      ReplaceKeepsCharOut(s[|pat|..], pat, rep, c);
    } else {
      ReplaceKeepsCharOut(s[1..], pat, rep, c);
    }
  }

  /** Searching for a one-character string is searching for the character. */
  lemma {:induction false} ContainsChar(s: string, c: char)
    ensures Contains(s, [c]) <==> c in s
    decreases |s|
  {
    if |s| > 0 {
      ContainsChar(s[1..], c);
      assert s == [s[0]] + s[1..];
    }
  }

  /** An occurrence of `sub` inside a longer pattern `sub + more` cannot occur where `sub` does not. */
  lemma {:induction false} ContainsLonger(s: string, sub: string, more: string)
    requires Contains(s, sub + more)
    ensures Contains(s, sub)
    decreases |s|
  {
    if StartsWith(s, sub + more) {
      assert s[..|sub|] == (sub + more)[..|sub|] == sub;
    } else {
      ContainsLonger(s[1..], sub, more);
    }
  }

  /** Every character of a pattern occurs in a text that holds the pattern. */
  lemma {:induction false} ContainsHasChars(s: string, w: string)
    ensures Contains(s, w) ==> forall i :: 0 <= i < |w| ==> w[i] in s
    decreases |s|
  {
    if Contains(s, w) {
      if StartsWith(s, w) {
        forall i | 0 <= i < |w|
          ensures w[i] in s
        {
          StartsWithAt(s, w, i);
        }
      } else {
        ContainsHasChars(s[1..], w);
        forall i | 0 <= i < |w|
          ensures w[i] in s
        {
          var j :| 0 <= j < |s[1..]| && s[1..][j] == w[i];
          assert s[j + 1] == w[i];
        }
      }
    }
  }

  /** A pattern with a character the text lacks does not occur in it. */
  lemma MissingChar(s: string, w: string, i: nat)
    requires i < |w| && w[i] !in s
    ensures !Contains(s, w)
  {
    ContainsHasChars(s, w);
  }

  /** A pattern whose first character is not in `x` occurs in `x + y` only inside `y`. */
  lemma {:induction false} ContainsPastPrefix(x: string, y: string, w: string)
    requires |w| > 0 && w[0] !in x
    ensures Contains(x + y, w) ==> Contains(y, w)
    decreases |x|
  {
    if |x| == 0 {
      assert x + y == y;
    } else {
      ContainsPastPrefix(x[1..], y, w);
      assert (x + y)[1..] == x[1..] + y;
      assert (x + y)[0] == x[0];
    }
  }

  // ---------------------------------------------------------------------
  // Splitting on a single character

  /** Splitting distributes over a separator in the middle. */
  lemma {:induction false} SplitAround(x: string, c: char, y: string)
    ensures Split(x + [c] + y, c) == Split(x, c) + Split(y, c)
    decreases |x|
  {
    var s := x + [c] + y;
    if |x| == 0 {
      assert s[1..] == y;
    } else {
      assert s[1..] == x[1..] + [c] + y;
      SplitAround(x[1..], c, y);
    }
  }

  /** A string free of the separator splits into itself alone. */
  lemma {:induction false} SplitFree(y: string, c: char)
    requires c !in y
    ensures Split(y, c) == [y]
    decreases |y|
  {
    if |y| >= 1 {
      SplitFree(y[1..], c);
      assert y == [y[0]] + y[1..];
    }
  }

  /** No piece of a split contains the separator. */
  lemma {:induction false} SplitPiecesFree(s: string, c: char)
    ensures forall i :: 0 <= i < |Split(s, c)| ==> c !in Split(s, c)[i]
    decreases |s|
  {
    if |s| >= 1 {
      SplitPiecesFree(s[1..], c);
    }
  }

  /**
   * Splitting undoes joining, when the separator occurs in none of the
   * (at least one) parts.
   */
  lemma {:induction false} SplitJoin(parts: seq<string>, c: char)
    requires |parts| >= 1
    requires forall i :: 0 <= i < |parts| ==> c !in parts[i]
    ensures Split(Join(parts, [c]), c) == parts
    decreases |parts|
  {
    SplitFree(parts[0], c);
    if |parts| > 1 {
      var rest := parts[1..];
      SplitJoin(rest, c);
      assert Join(parts, [c]) == parts[0] + [c] + Join(rest, [c]);
      SplitAround(parts[0], c, Join(rest, [c]));
      assert [parts[0]] + rest == parts;
    }
  }

  /** Joining the first `i` parts gives a prefix of the whole join, followed by the separator. */
  lemma {:induction false} JoinPrefix(parts: seq<string>, i: nat, sep: string)
    requires 0 < i < |parts|
    ensures Join(parts[..i], sep) + sep <= Join(parts, sep)
    decreases i
  {
    if i == 1 {
      assert parts[..1] == [parts[0]];
    } else {
      JoinPrefix(parts[1..], i - 1, sep);
      assert parts[..i][1..] == parts[1..][..i - 1];
    }
  }

  /** The last piece of a split on one character is what follows the last occurrence of it. */
  lemma SplitLastAfter(x: string, c: char, y: string)
    requires c !in y
    ensures var r := Split(x + [c] + y, c); r[|r| - 1] == y
  {
    SplitAround(x, c, y);
    SplitFree(y, c);
  }

  /** A joined list starts with the first part and ends with the last. */
  lemma {:induction false} JoinEnds(parts: seq<string>, sep: string)
    requires |parts| >= 1
    ensures parts[0] <= Join(parts, sep)
    ensures EndsWith(Join(parts, sep), parts[|parts| - 1])
    decreases |parts|
  {
    if |parts| > 1 {
      JoinEnds(parts[1..], sep);
      var j := Join(parts[1..], sep);
      var l := parts[|parts| - 1];
      assert l == parts[1..][|parts[1..]| - 1];
      var whole := parts[0] + sep + j;
      assert whole[|whole| - |l|..] == j[|j| - |l|..];
    }
  }

  // ---------------------------------------------------------------------
  // Occurrences in concatenations

  /** An occurrence in a string is an occurrence in any extension of it. */
  lemma {:induction false} ContainsAppend(x: string, y: string, w: string)
    requires Contains(x, w)
    ensures Contains(x + y, w)
    decreases |x|
  {
    if StartsWith(x, w) {
      assert (x + y)[..|w|] == x[..|w|];
    } else {
      ContainsAppend(x[1..], y, w);
      assert (x + y)[1..] == x[1..] + y;
    }
  }

  /** An occurrence in a string is an occurrence in anything ending with it. */
  lemma {:induction false} ContainsSuffix(x: string, y: string, w: string)
    requires Contains(y, w)
    ensures Contains(x + y, w)
    decreases |x|
  {
    if |x| == 0 {
      assert x + y == y;
    } else {
      ContainsSuffix(x[1..], y, w);
      assert (x + y)[1..] == x[1..] + y;
    }
  }

  /**
   * A pattern free of the character `c` that occurs in `x + [c] + y`
   * occurs in `x` or in `y`: it cannot straddle the `c`.
   */
  lemma {:induction false} ContainsAround(x: string, c: char, y: string, w: string)
    requires c !in w
    requires Contains(x + [c] + y, w)
    ensures Contains(x, w) || Contains(y, w)
    decreases |x|
  {
    var s := x + [c] + y;
    if StartsWith(s, w) {
      if |w| == 0 {
        assert StartsWith(x, w);
      } else if |w| <= |x| {
        assert x[..|w|] == s[..|w|];
      } else {
        StartsWithAt(s, w, |x|);
        assert false;
      }
    } else if |x| == 0 {
      assert s[1..] == y;
    } else {
      assert s[1..] == x[1..] + [c] + y;
      ContainsAround(x[1..], c, y, w);
      if Contains(x[1..], w) {
        assert x[1..] == x[1..];
      }
    }
  }

  /**
   * A pattern free of the separator character occurs in a join exactly when
   * it occurs in one of the parts.
   */
  lemma {:induction false} ContainsJoin(parts: seq<string>, c: char, w: string)
    requires |parts| >= 1
    requires c !in w
    ensures Contains(Join(parts, [c]), w) <==> exists i :: 0 <= i < |parts| && Contains(parts[i], w)
    decreases |parts|
  {
    if |parts| > 1 {
      ContainsJoin(parts[1..], c, w);
      var rest := Join(parts[1..], [c]);
      assert Join(parts, [c]) == parts[0] + [c] + rest;
      if Contains(Join(parts, [c]), w) {
        ContainsAround(parts[0], c, rest, w);
        if Contains(rest, w) {
          var i :| 0 <= i < |parts[1..]| && Contains(parts[1..][i], w);
          assert Contains(parts[i + 1], w);
        }
      }
      if exists i :: 0 <= i < |parts| && Contains(parts[i], w) {
        var i :| 0 <= i < |parts| && Contains(parts[i], w);
        if i == 0 {
          ContainsAppend(parts[0], [c] + rest, w);
          assert parts[0] + ([c] + rest) == parts[0] + [c] + rest;
        } else {
          assert Contains(parts[1..][i - 1], w);
          ContainsSuffix(parts[0] + [c], rest, w);
        }
      }
    }
  }

  /**
   * `Replace` passes over a stretch of text that holds no occurrence and
   * ends in a character outside the pattern: no occurrence can start in it.
   */
  lemma {:induction false} ReplaceSkips(x: string, z: string, pat: string, rep: string)
    requires |pat| > 0
    requires !Contains(x, pat)
    requires |x| > 0 ==> x[|x| - 1] !in pat
    ensures Replace(x + z, pat, rep) == x + Replace(z, pat, rep)
    decreases |x|
  {
    if |x| == 0 {
      assert x + z == z;
    } else {
      NoMatchAtStart(x, z, pat);
      ReplaceStepJoined(x, z, pat, rep);
      assert !Contains(x[1..], pat);
      ReplaceSkips(x[1..], z, pat, rep);
      ConsTail(x, Replace(z, pat, rep));
    }
  }

  /** `ReplaceStep` for a string written as `x + z`. */
  lemma ReplaceStepJoined(x: string, z: string, pat: string, rep: string)
    requires |pat| > 0 && |x| > 0 && !StartsWith(x + z, pat)
    ensures Replace(x + z, pat, rep) == [x[0]] + Replace(x[1..] + z, pat, rep)
  {
    var s := x + z;
    ReplaceStep(s, pat, rep);
    assert s[1..] == x[1..] + z;
  }

  /** A non-empty `x` is its first character followed by the rest. */
  lemma ConsTail(x: string, r: string)
    requires |x| > 0
    ensures [x[0]] + (x[1..] + r) == x + r
  {
  }

  /** Where no occurrence starts, `Replace` keeps the first character and goes on. */
  lemma ReplaceStep(s: string, pat: string, rep: string)
    requires |pat| > 0 && |s| > 0 && !StartsWith(s, pat)
    ensures Replace(s, pat, rep) == [s[0]] + Replace(s[1..], pat, rep)
  {
    if |s| < |pat| {
      assert s == [s[0]] + s[1..];
    }
  }

  /** No occurrence starts inside such a stretch `x`, even one running on into `z`. */
  lemma NoMatchAtStart(x: string, z: string, pat: string)
    requires |x| > 0 && !Contains(x, pat) && x[|x| - 1] !in pat
    ensures !StartsWith(x + z, pat)
  {
    var s := x + z;
    if StartsWith(s, pat) {
      if |pat| <= |x| {
        assert false;
      } else {
        StartsWithAt(s, pat, |x| - 1);
      }
    }
  }

}
