/** Python's `str.replace(old, new)`, with `str.split`, `str.join` and
    `str.count`, which are tied to it by standard identities. Every
    replacement in the formula engine goes through ReplaceAll. */
module PyString {

  /** `pat` occurs in `s` starting at index `i`. */
  predicate MatchAt(s: string, pat: string, i: int)
  {
    0 <= i && i + |pat| <= |s| && s[i..i + |pat|] == pat
  }

  /** `pat in s` for a non-empty `pat`. */
  predicate Occurs(s: string, pat: string)
  {
    exists i :: 0 <= i <= |s| && MatchAt(s, pat, i)
  }

  /** `s.replace(pat, rep)`: scans left to right and replaces every
      non-overlapping occurrence of `pat`; scanning resumes after the
      replaced occurrence, so the replacement text is never rescanned. An
      empty `pat` matches before every character and at the end. */
  function ReplaceAll(s: string, pat: string, rep: string): string
    decreases |s|
  {
    if |pat| == 0 then Interleave(s, rep)
    else if |s| < |pat| then s
    else if s[..|pat|] == pat then rep + ReplaceAll(s[|pat|..], pat, rep)
    else [s[0]] + ReplaceAll(s[1..], pat, rep)
  }

  /** `rep` before every character of `s` and after the last one. */
  function Interleave(s: string, rep: string): (r: string)
    ensures |r| == |s| + (|s| + 1) * |rep|
  {
    if |s| == 0 then rep else rep + [s[0]] + Interleave(s[1..], rep)
  }

  /** `s.count(pat)`: the number of non-overlapping occurrences. */
  function Count(s: string, pat: string): nat
    requires |pat| > 0
    decreases |s|
  {
    if |s| < |pat| then 0
    else if s[..|pat|] == pat then 1 + Count(s[|pat|..], pat)
    else Count(s[1..], pat)
  }

  /** `s.split(sep)`: the pieces between non-overlapping occurrences. */
  function Split(s: string, sep: string): (pieces: seq<string>)
    requires |sep| > 0
    ensures |pieces| > 0
    decreases |s|
  {
    if |s| < |sep| then [s]
    else if s[..|sep|] == sep then [""] + Split(s[|sep|..], sep)
    else
      var rest := Split(s[1..], sep);
      [[s[0]] + rest[0]] + rest[1..]
  }

  /** `sep.join(pieces)`. */
  function Join(pieces: seq<string>, sep: string): string
  {
    if |pieces| == 0 then ""
    else if |pieces| == 1 then pieces[0]
    else pieces[0] + sep + Join(pieces[1..], sep)
  }

  lemma OccursInTail(s: string, pat: string)
    requires |s| > 0 && Occurs(s[1..], pat)
    ensures Occurs(s, pat)
  {
    var i :| 0 <= i <= |s| - 1 && MatchAt(s[1..], pat, i);
    assert s[i + 1..i + 1 + |pat|] == s[1..][i..i + |pat|];
    assert MatchAt(s, pat, i + 1);
  }

  lemma OccursInSuffix(s: string, pat: string, k: nat)
    requires k <= |s| && Occurs(s[k..], pat)
    ensures Occurs(s, pat)
  {
    var i :| 0 <= i <= |s| - k && MatchAt(s[k..], pat, i);
    assert s[i + k..i + k + |pat|] == s[k..][i..i + |pat|];
    assert MatchAt(s, pat, i + k);
  }

  /** A string in which `pat` does not occur is returned unchanged. */
  lemma {:induction false} ReplaceAllAbsent(s: string, pat: string, rep: string)
    requires !Occurs(s, pat)
    ensures ReplaceAll(s, pat, rep) == s
    decreases |s|
  {
    assert !MatchAt(s, pat, 0);
    if |s| >= |pat| {
      if Occurs(s[1..], pat) { OccursInTail(s, pat); }
      ReplaceAllAbsent(s[1..], pat, rep);
    }
  }

  /** Replacing a substring by itself is the identity. */
  lemma {:induction false} ReplaceAllSelf(s: string, pat: string)
    requires |pat| > 0
    ensures ReplaceAll(s, pat, pat) == s
    decreases |s|
  {
    if |s| >= |pat| {
      if s[..|pat|] == pat {
        ReplaceAllSelf(s[|pat|..], pat);
        assert s == s[..|pat|] + s[|pat|..];
      } else {
        ReplaceAllSelf(s[1..], pat);
        assert s == [s[0]] + s[1..];
      }
    }
  }

  /** Each replaced occurrence changes the length by `|rep| - |pat|`. */
  lemma {:induction false} ReplaceAllLength(s: string, pat: string, rep: string)
    requires |pat| > 0
    ensures |ReplaceAll(s, pat, rep)| == |s| + Count(s, pat) * (|rep| - |pat|)
    decreases |s|
  {
    if |s| >= |pat| {
      if s[..|pat|] == pat {
        var rest := s[|pat|..];
        ReplaceAllLength(rest, pat, rep);
        assert |ReplaceAll(s, pat, rep)| == |rep| + |ReplaceAll(rest, pat, rep)|;
        assert Count(s, pat) == 1 + Count(rest, pat);
        OneMore(Count(rest, pat), |rep| - |pat|);
      } else {
        ReplaceAllLength(s[1..], pat, rep);
        assert |ReplaceAll(s, pat, rep)| == 1 + |ReplaceAll(s[1..], pat, rep)|;
      }
    }
  }

  lemma OneMore(c: nat, d: int)
    ensures (1 + c) * d == d + c * d
  {
  }

  /** `s.count(pat) > 0` exactly when `pat in s`. */
  lemma {:induction false} CountPositiveIffOccurs(s: string, pat: string)
    requires |pat| > 0
    ensures Count(s, pat) > 0 <==> Occurs(s, pat)
    decreases |s|
  {
    if |s| < |pat| {
      assert !Occurs(s, pat);
    } else if s[..|pat|] == pat {
      assert MatchAt(s, pat, 0);
    } else {
      CountPositiveIffOccurs(s[1..], pat);
      if Occurs(s, pat) {
        var i :| 0 <= i <= |s| && MatchAt(s, pat, i);
        assert i != 0;
        assert s[1..][i - 1..i - 1 + |pat|] == s[i..i + |pat|];
        assert MatchAt(s[1..], pat, i - 1);
      }
      if Occurs(s[1..], pat) { OccursInTail(s, pat); }
    }
  }

  /** A replacement of a different length changes every string that contains
      the pattern. */
  lemma ReplaceAllChanges(s: string, pat: string, rep: string)
    requires |pat| > 0 && |rep| != |pat| && Occurs(s, pat)
    ensures ReplaceAll(s, pat, rep) != s
  {
    CountPositiveIffOccurs(s, pat);
    ReplaceAllLength(s, pat, rep);
    ScaledNonZero(Count(s, pat), |rep| - |pat|);
  }

  lemma {:induction false} ScaledNonZero(c: nat, d: int)
    requires c > 0 && d != 0
    ensures (d > 0 ==> c * d >= d) && (d < 0 ==> c * d <= d)
  {
    if c > 1 {
      ScaledNonZero(c - 1, d);
      assert c * d == (c - 1) * d + d;
    }
  }

  lemma JoinCons(c: char, pieces: seq<string>, sep: string)
    requires |pieces| > 0
    ensures Join([[c] + pieces[0]] + pieces[1..], sep) == [c] + Join(pieces, sep)
  {
    var q := [[c] + pieces[0]] + pieces[1..];
    assert q[1..] == pieces[1..];
  }

  /** `s.replace(old, new)` equals `new.join(s.split(old))` for every
      non-empty `old`, a standard identity that ties the two together. */
  lemma {:induction false} ReplaceAllIsJoinOfSplit(s: string, pat: string, rep: string)
    requires |pat| > 0
    ensures ReplaceAll(s, pat, rep) == Join(Split(s, pat), rep)
    decreases |s|
  {
    if |s| >= |pat| {
      if s[..|pat|] == pat {
        ReplaceAllIsJoinOfSplit(s[|pat|..], pat, rep);
        var q := [""] + Split(s[|pat|..], pat);
        assert q[1..] == Split(s[|pat|..], pat);
      } else {
        ReplaceAllIsJoinOfSplit(s[1..], pat, rep);
        JoinCons(s[0], Split(s[1..], pat), rep);
      }
    }
  }

  /** Splitting and joining with the same separator gives the string back. */
  lemma JoinSplitRoundTrip(s: string, sep: string)
    requires |sep| > 0
    ensures Join(Split(s, sep), sep) == s
  {
    ReplaceAllIsJoinOfSplit(s, sep, sep);
    ReplaceAllSelf(s, sep);
  }

  /** An occurrence at the start is replaced whatever follows it: the scan has
      no notion of identifier boundaries. */
  lemma ReplaceAllAtStart(pat: string, tail: string, rep: string)
    requires |pat| > 0
    ensures ReplaceAll(pat + tail, pat, rep) == rep + ReplaceAll(tail, pat, rep)
  {
    var s := pat + tail;
    assert s[..|pat|] == pat && s[|pat|..] == tail;
  }

  /** A prefix free of the pattern's first character is copied unchanged. */
  lemma {:induction false} ReplaceAllSkip(head: string, tail: string, pat: string, rep: string)
    requires |pat| > 0 && pat[0] !in head
    ensures ReplaceAll(head + tail, pat, rep) == head + ReplaceAll(tail, pat, rep)
    decreases |head|
  {
    if |head| > 0 {
      var s := head + tail;
      assert s[0] == head[0] != pat[0];
      if |s| >= |pat| {
        assert s[..|pat|] != pat;
      }
      assert s[1..] == head[1..] + tail;
      ReplaceAllSkip(head[1..], tail, pat, rep);
    } else {
      assert head + tail == tail;
    }
  }

  /** A pattern with a character the string lacks does not occur in it. */
  lemma AbsentMissingChar(s: string, pat: string, c: char)
    requires c in pat && c !in s
    ensures !Occurs(s, pat)
  {
    forall i | 0 <= i <= |s| && i + |pat| <= |s| ensures !MatchAt(s, pat, i) {
      var k :| 0 <= k < |pat| && pat[k] == c;
      assert s[i..i + |pat|][k] == s[i + k];
    }
  }

  /** A string missing one of the pattern's characters is left unchanged. */
  lemma ReplaceAllMissingChar(s: string, pat: string, rep: string, c: char)
    requires |pat| > 0 && c in pat && c !in s
    ensures ReplaceAll(s, pat, rep) == s
  {
    AbsentMissingChar(s, pat, c);
    ReplaceAllAbsent(s, pat, rep);
  }

  /** A character that is not in `pat` cannot lie inside an occurrence, so
      `pat` occurs on neither side of it only if it occurs nowhere. */
  lemma AbsentAcross(a: string, c: char, b: string, pat: string)
    requires c !in pat && !Occurs(a, pat) && !Occurs(b, pat)
    ensures !Occurs(a + [c] + b, pat)
  {
    var s := a + [c] + b;
    forall i | 0 <= i <= |s| ensures !MatchAt(s, pat, i) {
      if i + |pat| <= |a| {
        assert s[i..i + |pat|] == a[i..i + |pat|];
        assert !MatchAt(a, pat, i);
      } else if i > |a| {
        var j := i - |a| - 1;
        if i + |pat| <= |s| {
          assert s[i..i + |pat|] == b[j..j + |pat|];
          assert !MatchAt(b, pat, j);
        }
      } else if i + |pat| <= |s| {
        assert s[i..i + |pat|][|a| - i] == c;
      }
    }
  }

  /** Splitting `s` at a character foreign to `pat`, with each side missing
      some character of `pat`, shows that `pat` does not occur. */
  lemma AbsentAround(a: string, c: char, b: string, pat: string, ca: char, cb: char)
    requires c !in pat && ca in pat && ca !in a && cb in pat && cb !in b
    ensures !Occurs(a + [c] + b, pat)
  {
    AbsentMissingChar(a, pat, ca);
    AbsentMissingChar(b, pat, cb);
    AbsentAcross(a, c, b, pat);
  }

  /** AbsentAcross with the right-hand side given as two parts. */
  lemma AbsentAcrossThen(a: string, c: char, b: string, t: string, pat: string)
    requires c !in pat && !Occurs(a, pat) && !Occurs(b + t, pat)
    ensures !Occurs(a + [c] + b + t, pat)
  {
    assert a + [c] + b + t == a + [c] + (b + t);
    AbsentAcross(a, c, b + t, pat);
  }

  /** A pattern whose beginning does not occur does not occur either. */
  lemma AbsentPrefix(s: string, pat: string, q: string)
    requires |q| <= |pat| && pat[..|q|] == q && !Occurs(s, q)
    ensures !Occurs(s, pat)
  {
    forall i | 0 <= i <= |s| && i + |pat| <= |s| ensures !MatchAt(s, pat, i) {
      assert !MatchAt(s, q, i);
      assert s[i..i + |pat|][..|q|] == s[i..i + |q|];
    }
  }

  /** No occurrence starting before `n` in `s` means none starting before
      `n - 1` in `s[1..]`. */
  lemma NoMatchShift(s: string, pat: string, n: nat)
    requires |s| > 0 && forall i :: 0 <= i < n ==> !MatchAt(s, pat, i)
    ensures forall i :: 0 <= i < n - 1 ==> !MatchAt(s[1..], pat, i)
  {
    forall i | 0 <= i < n - 1 ensures !MatchAt(s[1..], pat, i) {
      assert !MatchAt(s, pat, i + 1);
      if i + |pat| <= |s| - 1 {
        assert s[1..][i..i + |pat|] == s[i + 1..i + 1 + |pat|];
      }
    }
  }

  /** A prefix in which no occurrence starts is copied unchanged. */
  lemma {:induction false} ReplaceAllNoMatchBefore(head: string, tail: string, pat: string, rep: string)
    requires |pat| > 0
    requires forall i :: 0 <= i < |head| ==> !MatchAt(head + tail, pat, i)
    ensures ReplaceAll(head + tail, pat, rep) == head + ReplaceAll(tail, pat, rep)
    decreases |head|
  {
    var s := head + tail;
    if |head| == 0 {
      assert s == tail;
    } else if |s| < |pat| {
      assert ReplaceAll(tail, pat, rep) == tail;
    } else {
      assert !MatchAt(s, pat, 0);
      ReplaceAllMismatch(s, pat, rep);
      NoMatchShift(s, pat, |head|);
      assert s[1..] == head[1..] + tail;
      ReplaceAllNoMatchBefore(head[1..], tail, pat, rep);
      var r := ReplaceAll(tail, pat, rep);
      assert [s[0]] + (head[1..] + r) == head + r by {
        assert [s[0]] + (head[1..] + r) == ([head[0]] + head[1..]) + r;
        assert [head[0]] + head[1..] == head;
      }
    }
  }

  /** When `pat` ends the string and occurs nowhere earlier, the scan
      replaces exactly that last occurrence. */
  lemma ReplaceAllOnlyAtEnd(head: string, pat: string, rep: string)
    requires |pat| > 0 && !Occurs(head + pat[..|pat| - 1], pat)
    ensures ReplaceAll(head + pat, pat, rep) == head + rep
  {
    var s, shorter := head + pat, head + pat[..|pat| - 1];
    forall i | 0 <= i < |head| ensures !MatchAt(s, pat, i) {
      assert !MatchAt(shorter, pat, i);
      assert s[i..i + |pat|] == shorter[i..i + |pat|];
    }
    ReplaceAllNoMatchBefore(head, pat, pat, rep);
    assert pat + "" == pat;
    ReplaceAllAtStart(pat, "", rep);
  }

  /** A string that does not start with the pattern keeps its first
      character, and the scan moves on by one. */
  lemma ReplaceAllMismatch(s: string, pat: string, rep: string)
    requires |pat| > 0 && |s| >= |pat| && s[..|pat|] != pat
    ensures ReplaceAll(s, pat, rep) == [s[0]] + ReplaceAll(s[1..], pat, rep)
  {
  }
}
