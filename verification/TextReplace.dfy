/**
 String replacement as Python's `str.replace` and PostgreSQL's `replace()` do it: leftmost first,
 without overlaps, in one pass that never looks at what it has already written.
 */
module TextReplace {

  function Replace(s: string, pat: string, rep: string): (r: string)
    requires pat != ""
  {
    if |s| < |pat| then s
    else if pat <= s then rep + Replace(s[|pat|..], pat, rep)
    else [s[0]] + Replace(s[1..], pat, rep)
  }

  /** `sub` occurs in `s`. */
  predicate Contains(s: string, sub: string)
  {
    exists i | 0 <= i <= |s| :: sub <= s[i..]
  }

  /** `s LIKE 'pat%'`, for a pattern whose only wildcard is `_`, which stands for any character. */
  predicate LikeAt(s: string, pat: string)
  {
    |pat| <= |s| && forall k | 0 <= k < |pat| :: pat[k] == '_' || s[k] == pat[k]
  }

  /** `s LIKE '%pat%'`. */
  predicate Like(s: string, pat: string)
  {
    exists i | 0 <= i <= |s| :: LikeAt(s[i..], pat)
  }

  /** An occurrence matches, and without the wildcard nothing else does. */
  lemma LikeContains(s: string, pat: string)
    ensures Contains(s, pat) ==> Like(s, pat)
    ensures '_' !in pat ==> (Like(s, pat) <==> Contains(s, pat))
  {
    if i :| 0 <= i <= |s| && pat <= s[i..] {
      assert LikeAt(s[i..], pat);
    }
    if '_' !in pat && Like(s, pat) {
      var i :| 0 <= i <= |s| && LikeAt(s[i..], pat);
      assert s[i..][..|pat|] == pat;
    }
  }

  lemma ContainsWithin(a: string, s: string, b: string, sub: string)
    requires Contains(s, sub)
    ensures Contains(a + (s + b), sub)
  {
    var i :| 0 <= i <= |s| && sub <= s[i..];
    assert (a + (s + b))[|a| + i..] == s[i..] + b;
  }

  lemma InertHoldsNone(s: string, pat: string)
    requires pat != "" && Inert(s, pat)
    ensures !Contains(s, pat)
  {
  }

  /** One of the two is a prefix of the other: nothing read so far tells them apart. */
  predicate Compatible(a: string, b: string)
  {
    a <= b || b <= a
  }

  /** Whatever text follows `chunk`, no occurrence of `pat` starts inside it. */
  predicate Inert(chunk: string, pat: string)
  {
    forall p | 0 <= p < |chunk| :: !Compatible(chunk[p..], pat)
  }

  /** Two strings that differ at some position are not compatible. */
  lemma Clash(a: string, b: string, i: nat)
    requires i < |a| && i < |b| && a[i] != b[i]
    ensures !Compatible(a, b)
  {
  }

  lemma NoFirstCharInert(chunk: string, pat: string)
    requires pat != "" && pat[0] !in chunk
    ensures Inert(chunk, pat)
  {
  }

  lemma InertConcat(a: string, b: string, pat: string)
    requires Inert(a, pat) && Inert(b, pat)
    ensures Inert(a + b, pat)
  {
    forall p | 0 <= p < |a + b| ensures !Compatible((a + b)[p..], pat) {
      if p < |a| {
        var i := Mismatch(a[p..], pat);
        assert (a + b)[p..][i] == a[p..][i];
        Clash((a + b)[p..], pat, i);
      } else {
        assert (a + b)[p..] == b[p - |a|..];
      }
    }
  }

  lemma InertCons(c: char, rest: string, pat: string)
    requires !Compatible([c] + rest, pat) && Inert(rest, pat)
    ensures Inert([c] + rest, pat)
  {
    var s := [c] + rest;
    forall p | 0 <= p < |s| ensures !Compatible(s[p..], pat) {
      if p > 0 { assert s[p..] == rest[p - 1..]; } else { assert s[0..] == s; }
    }
  }

  lemma Mismatch(a: string, b: string) returns (i: nat)
    requires !Compatible(a, b)
    ensures i < |a| && i < |b| && a[i] != b[i]
  {
    i := 0;
    while i < |a| && i < |b| && a[i] == b[i]
      invariant i <= |a| && i <= |b|
      invariant a[..i] == b[..i]
    {
      i := i + 1;
    }
    assert a[..|a|] == a && b[..|b|] == b;
  }

  /** One character is copied where no occurrence starts. */
  lemma CopyOne(c: char, tail: string, pat: string, rep: string)
    requires pat != "" && !(pat <= [c] + tail)
    ensures Replace([c] + tail, pat, rep) == [c] + Replace(tail, pat, rep)
  {
    assert ([c] + tail)[1..] == tail;
  }

  /** The pass copies a chunk in which no occurrence starts, given what follows it. */
  lemma {:induction false} CopyThrough(chunk: string, rest: string, pat: string, rep: string)
    requires pat != ""
    requires forall p | 0 <= p < |chunk| :: !(pat <= (chunk + rest)[p..])
    ensures Replace(chunk + rest, pat, rep) == chunk + Replace(rest, pat, rep)
  {
    if chunk == "" {
      assert chunk + rest == rest;
    } else {
      var s, tail := chunk + rest, chunk[1..] + rest;
      assert s == [chunk[0]] + tail && s[0..] == s;
      forall p | 0 <= p < |chunk[1..]| ensures !(pat <= tail[p..]) {
        assert tail[p..] == s[p + 1..];
      }
      CopyThrough(chunk[1..], rest, pat, rep);
      CopyOne(chunk[0], tail, pat, rep);
      assert chunk == [chunk[0]] + chunk[1..];
    }
  }

  lemma ReplaceShort(s: string, pat: string, rep: string)
    requires |s| < |pat|
    ensures Replace(s, pat, rep) == s
  {
  }

  lemma CopyInert(chunk: string, rest: string, pat: string, rep: string)
    requires pat != "" && Inert(chunk, pat)
    ensures Replace(chunk + rest, pat, rep) == chunk + Replace(rest, pat, rep)
  {
    forall p | 0 <= p < |chunk| ensures !(pat <= (chunk + rest)[p..]) {
      var i := Mismatch(chunk[p..], pat);
      assert (chunk + rest)[p..][i] == chunk[p..][i];
    }
    CopyThrough(chunk, rest, pat, rep);
  }

  lemma ReplaceHere(rest: string, pat: string, rep: string)
    requires pat != ""
    ensures Replace(pat + rest, pat, rep) == rep + Replace(rest, pat, rep)
  {
    assert (pat + rest)[|pat|..] == rest;
  }

  /** A replacement shorter than its pattern shortens the text, unless there was nothing to replace. */
  lemma {:induction false} ReplaceShrinks(s: string, pat: string, rep: string)
    requires |rep| < |pat|
    ensures |Replace(s, pat, rep)| <= |s|
    ensures |Replace(s, pat, rep)| == |s| ==> Replace(s, pat, rep) == s && !Contains(s, pat)
  {
    if |s| < |pat| {
    } else if pat <= s {
      ReplaceShrinks(s[|pat|..], pat, rep);
    } else {
      ReplaceShrinks(s[1..], pat, rep);
      if |Replace(s, pat, rep)| == |s| {
        assert s == [s[0]] + s[1..];
        forall i | 0 <= i <= |s| ensures !(pat <= s[i..]) {
          if i > 0 { assert s[i..] == s[1..][i - 1..]; } else { assert s[0..] == s; }
        }
      }
    }
  }

  /** A replacement longer than its pattern lengthens every text that has an occurrence. */
  lemma {:induction false} ReplaceGrows(s: string, pat: string, rep: string)
    requires 0 < |pat| < |rep|
    ensures |Replace(s, pat, rep)| >= |s|
    ensures Contains(s, pat) ==> |Replace(s, pat, rep)| > |s|
  {
    if |s| < |pat| {
    } else if pat <= s {
      ReplaceGrows(s[|pat|..], pat, rep);
    } else {
      ReplaceGrows(s[1..], pat, rep);
      if Contains(s, pat) {
        var i :| 0 <= i <= |s| && pat <= s[i..];
        assert s[0..] == s;
        assert s[i..] == s[1..][i - 1..];
      }
    }
  }

  /** No occurrence of `pat` can start in `pat` past its first character and run into `rep`. */
  predicate NoOverlapInto(pat: string, rep: string)
  {
    forall i | 1 <= i < |pat| :: !Compatible(pat[i..], rep)
  }

  lemma {:induction false} TailSurvives(s: string, pat: string, rep: string, i: nat)
    requires pat != "" && NoOverlapInto(pat, rep)
    requires 1 <= i < |pat| && pat[i..] <= Replace(s, pat, rep)
    ensures pat[i..] <= s
  {
    if |s| < |pat| {
    } else if pat <= s {
      var t := Replace(s[|pat|..], pat, rep);
      var m := Mismatch(pat[i..], rep);
      assert false;
    } else if i + 1 < |pat| {
      var t := Replace(s[1..], pat, rep);
      assert pat[i..][0] == ([s[0]] + t)[0];
      assert pat[i + 1..] <= t by {
        assert pat[i + 1..] == pat[i..][1..];
        assert ([s[0]] + t)[1..] == t;
      }
      TailSurvives(s[1..], pat, rep, i + 1);
      assert pat[i..] == [pat[i]] + pat[i + 1..];
      assert s == [s[0]] + s[1..];
    }
  }

  /** If `rep` neither holds nor can complete an occurrence of `pat`, a second pass changes nothing. */
  lemma {:induction false} ReplaceIdempotent(s: string, pat: string, rep: string)
    requires |pat| > 1 && Inert(rep, pat) && NoOverlapInto(pat, rep)
    ensures Replace(Replace(s, pat, rep), pat, rep) == Replace(s, pat, rep)
  {
    if |s| < |pat| {
    } else if pat <= s {
      var t := Replace(s[|pat|..], pat, rep);
      CopyInert(rep, t, pat, rep);
      ReplaceIdempotent(s[|pat|..], pat, rep);
    } else {
      var t := Replace(s[1..], pat, rep);
      ReplaceIdempotent(s[1..], pat, rep);
      if pat <= [s[0]] + t {
        assert pat[1..] <= t by { assert ([s[0]] + t)[1..] == t; }
        assert pat == [s[0]] + pat[1..] && s == [s[0]] + s[1..];
        TailSurvives(s[1..], pat, rep, 1);
        assert false;
      }
      assert ([s[0]] + t)[1..] == t;
    }
  }
}
