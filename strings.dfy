/** Python string behaviour the dashboard relies on: code-point lexicographic
    order (groupby's key order), ASCII upper-casing and str.replace. */
module Strings {

  /** Python's `a < b` on str: lexicographic by code point, a proper prefix first. */
  predicate StrLt(a: string, b: string)
  {
    if |a| == 0 then |b| > 0
    else if |b| == 0 then false
    else a[0] < b[0] || (a[0] == b[0] && StrLt(a[1..], b[1..]))
  }

  lemma {:induction false} StrLtIrreflexive(a: string)
    ensures !StrLt(a, a)
  {
    if |a| > 0 {
      StrLtIrreflexive(a[1..]);
    }
  }

  lemma {:induction false} StrLtTransitive(a: string, b: string, c: string)
    requires StrLt(a, b) && StrLt(b, c)
    ensures StrLt(a, c)
  {
    if |a| > 0 && |b| > 0 && |c| > 0 && a[0] == b[0] && b[0] == c[0] {
      StrLtTransitive(a[1..], b[1..], c[1..]);
    }
  }

  lemma {:induction false} StrLtTotal(a: string, b: string)
    requires a != b
    ensures StrLt(a, b) || StrLt(b, a)
  {
    if |a| > 0 && |b| > 0 && a[0] == b[0] {
      assert a == [a[0]] + a[1..] && b == [b[0]] + b[1..];
      StrLtTotal(a[1..], b[1..]);
    }
  }

  predicate IsLower(c: char)
  {
    'a' <= c <= 'z'
  }

  function ToUpper(c: char): char
  {
    if IsLower(c) then (c as int - 32) as char else c
  }

  /** str.upper, for the ASCII letters. */
  function Upper(s: string): (r: string)
    ensures |r| == |s|
    ensures forall i :: 0 <= i < |s| ==> r[i] == ToUpper(s[i])
  {
    if s == [] then [] else [ToUpper(s[0])] + Upper(s[1..])
  }

  lemma UpperAppend(a: string, b: string)
    ensures Upper(a + b) == Upper(a) + Upper(b)
  {
    var l, r := Upper(a + b), Upper(a) + Upper(b);
    forall i | 0 <= i < |l| ensures l[i] == r[i] {
      if i < |a| {
        assert (a + b)[i] == a[i];
      } else {
        assert (a + b)[i] == b[i - |a|];
      }
    }
  }

  /** No character of `s` is a lower-case ASCII letter. */
  predicate NoLower(s: string)
  {
    forall i :: 0 <= i < |s| ==> !IsLower(s[i])
  }

  lemma UpperHasNoLower(s: string)
    ensures NoLower(Upper(s))
  {
  }

  lemma {:induction false} UpperOfNoLower(s: string)
    requires NoLower(s)
    ensures Upper(s) == s
  {
    if s != [] {
      UpperOfNoLower(s[1..]);
    }
  }

  /** `q` occurs in `s` starting at index `i`. */
  predicate At(s: string, i: int, q: string)
  {
    0 <= i && i + |q| <= |s| && s[i..i + |q|] == q
  }

  ghost predicate Occurs(s: string, q: string)
  {
    exists i :: At(s, i, q)
  }

  /** str.replace(pat, rep): every non-overlapping occurrence of `pat`,
      scanning from the left, becomes `rep`. */
  function Replace(s: string, pat: string, rep: string): string
    requires |pat| > 0
    decreases |s|
  {
    if |s| < |pat| then s
    else if s[..|pat|] == pat then rep + Replace(s[|pat|..], pat, rep)
    else [s[0]] + Replace(s[1..], pat, rep)
  }

  lemma {:induction false} ReplaceAbsent(s: string, pat: string, rep: string)
    requires |pat| > 0 && !Occurs(s, pat)
    ensures Replace(s, pat, rep) == s
    decreases |s|
  {
    if |s| >= |pat| {
      assert !At(s, 0, pat);
      forall i | At(s[1..], i, pat) ensures At(s, i + 1, pat) {
        assert s[1..][i..i + |pat|] == s[i + 1..i + 1 + |pat|];
      }
      ReplaceAbsent(s[1..], pat, rep);
    }
  }

  /** No occurrence of `pat` in `w` starts before index `n` and ends after it. */
  ghost predicate NoStraddle(w: string, n: int, pat: string)
  {
    forall i :: 0 <= i < n < i + |pat| ==> !At(w, i, pat)
  }

  /** Replacement works piece by piece on a split that no occurrence of `pat`
      straddles. */
  lemma ReplaceSplit(u: string, v: string, pat: string, rep: string)
    requires |pat| > 0 && NoStraddle(u + v, |u|, pat)
    ensures Replace(u + v, pat, rep) == Replace(u, pat, rep) + Replace(v, pat, rep)
    decreases |u|, 1
  {
    var w := u + v;
    if u == [] {
      assert w == v;
    } else if |w| < |pat| {
      assert Replace(u, pat, rep) == u && Replace(v, pat, rep) == v;
    } else if w[..|pat|] == pat {
      ReplaceSplitAtMatch(u, v, pat, rep);
    } else {
      ReplaceSplitPastChar(u, v, pat, rep);
    }
  }

  lemma ReplaceSplitAtMatch(u: string, v: string, pat: string, rep: string)
    requires |pat| > 0 && NoStraddle(u + v, |u|, pat)
    requires u != [] && |u + v| >= |pat| && (u + v)[..|pat|] == pat
    ensures Replace(u + v, pat, rep) == Replace(u, pat, rep) + Replace(v, pat, rep)
    decreases |u|, 0
  {
    var w := u + v;
    assert At(w, 0, pat);
    assert u[..|pat|] == pat;
    NoStraddleDrop(u, v, pat, |pat|);
    ReplaceSplit(u[|pat|..], v, pat, rep);
  }

  lemma ReplaceSplitPastChar(u: string, v: string, pat: string, rep: string)
    requires |pat| > 0 && NoStraddle(u + v, |u|, pat)
    requires u != [] && |u + v| >= |pat| && (u + v)[..|pat|] != pat
    ensures Replace(u + v, pat, rep) == Replace(u, pat, rep) + Replace(v, pat, rep)
    decreases |u|, 0
  {
    var w := u + v;
    NoStraddleDrop(u, v, pat, 1);
    assert Replace(w, pat, rep) == [w[0]] + Replace(w[1..], pat, rep);
    ReplaceSplit(u[1..], v, pat, rep);
    var t := Replace(u[1..], pat, rep);
    assert w[0] == u[0];
    assert Replace(w, pat, rep) == [u[0]] + (t + Replace(v, pat, rep));
    if |u| >= |pat| {
      assert u[..|pat|] == w[..|pat|];
      assert Replace(u, pat, rep) == [u[0]] + t;
    } else {
      assert Replace(u, pat, rep) == u && t == u[1..];
      assert u == [u[0]] + u[1..];
    }
  }

  /** Dropping a prefix of `u` keeps the split unstraddled. */
  lemma NoStraddleDrop(u: string, v: string, pat: string, d: nat)
    requires NoStraddle(u + v, |u|, pat) && d <= |u|
    ensures NoStraddle(u[d..] + v, |u| - d, pat) && (u + v)[d..] == u[d..] + v
  {
    var w, w' := u + v, u[d..] + v;
    assert w[d..] == w';
    forall i | 0 <= i < |u| - d < i + |pat| ensures !At(w', i, pat) {
      if i + |pat| <= |w'| {
        assert w'[i..i + |pat|] == w[i + d..i + d + |pat|];
      }
      assert !At(w, i + d, pat);
    }
  }

  /** No occurrence of `pat` can partly overlap `m`: no later character of
      `pat` is the first one of `m`, and no occurrence can start inside `m`
      and run past its end. */
  predicate Separated(m: string, pat: string)
  {
    |m| > 0 &&
    (forall k :: 0 < k < |pat| ==> pat[k] != m[0]) &&
    (forall k :: 0 <= k < |m| && |m| - k < |pat| ==> m[k] != pat[0])
  }

  /** A middle piece that no occurrence of `pat` can partly overlap is
      replaced on its own. */
  lemma ReplaceAround(u: string, m: string, v: string, pat: string, rep: string)
    requires |pat| > 0 && Separated(m, pat)
    ensures Replace(u + m + v, pat, rep) == Replace(u, pat, rep) + Replace(m, pat, rep) + Replace(v, pat, rep)
  {
    var w := u + m + v;
    forall i | 0 <= i < |u| < i + |pat| ensures !At(u + m, i, pat) {
      if i + |pat| <= |u + m| {
        assert (u + m)[i..i + |pat|][|u| - i] == m[0] != pat[|u| - i];
      }
    }
    ReplaceSplit(u, m, pat, rep);
    forall i | 0 <= i < |u + m| < i + |pat| ensures !At(w, i, pat) {
      if i + |pat| <= |w| {
        if i < |u| {
          assert w[i..i + |pat|][|u| - i] == m[0] != pat[|u| - i];
        } else {
          assert w[i..i + |pat|][0] == m[i - |u|] != pat[0];
        }
      }
    }
    ReplaceSplit(u + m, v, pat, rep);
  }

  /** The first occurrence of `pat` becomes `rep`, and replacement goes on
      after it; with ReplaceAbsent this determines Replace on every string. */
  lemma ReplaceFirst(a: string, pat: string, rep: string, b: string)
    requires |pat| > 0 && !Occurs(a + pat[..|pat| - 1], pat)
    ensures Replace(a + pat + b, pat, rep) == a + rep + Replace(b, pat, rep)
  {
    var w := a + pat + b;
    var c := a + pat[..|pat| - 1];
    assert w == a + (pat + b);
    forall i | 0 <= i < |a| < i + |pat| ensures !At(w, i, pat) {
      assert w[i..i + |pat|] == c[i..i + |pat|];
      assert !At(c, i, pat);
    }
    ReplaceSplit(a, pat + b, pat, rep);
    forall i | 0 <= i && i + |pat| <= |a| ensures !At(a, i, pat) {
      assert a[i..i + |pat|] == c[i..i + |pat|];
      assert !At(c, i, pat);
    }
    ReplaceAbsent(a, pat, rep);
    assert (pat + b)[..|pat|] == pat;
    assert (pat + b)[|pat|..] == b;
    assert w == a + (pat + b);
  }

  /** Every character of the result comes from `s` or from `rep`. */
  lemma {:induction false} ReplaceChars(s: string, pat: string, rep: string)
    requires |pat| > 0
    ensures forall i :: 0 <= i < |Replace(s, pat, rep)| ==> Replace(s, pat, rep)[i] in s || Replace(s, pat, rep)[i] in rep
    decreases |s|
  {
    if |s| >= |pat| {
      if s[..|pat|] == pat {
        ReplaceChars(s[|pat|..], pat, rep);
        var t := Replace(s[|pat|..], pat, rep);
        forall i | 0 <= i < |rep + t| ensures (rep + t)[i] in s || (rep + t)[i] in rep {
          if i >= |rep| {
            assert (rep + t)[i] == t[i - |rep|];
            var c := t[i - |rep|];
            if c in s[|pat|..] {
              var j :| 0 <= j < |s[|pat|..]| && s[|pat|..][j] == c;
              assert s[j + |pat|] == c;
            }
          }
        }
      } else {
        ReplaceChars(s[1..], pat, rep);
        var t := Replace(s[1..], pat, rep);
        forall i | 0 <= i < |[s[0]] + t| ensures ([s[0]] + t)[i] in s || ([s[0]] + t)[i] in rep {
          if i >= 1 {
            assert ([s[0]] + t)[i] == t[i - 1];
            var c := t[i - 1];
            if c in s[1..] {
              var j :| 0 <= j < |s[1..]| && s[1..][j] == c;
              assert s[j + 1] == c;
            }
          }
        }
      }
    }
  }

  lemma ReplaceKeepsNoLower(s: string, pat: string, rep: string)
    requires |pat| > 0 && NoLower(s) && NoLower(rep)
    ensures NoLower(Replace(s, pat, rep))
  {
    ReplaceChars(s, pat, rep);
  }

  /** A prefix of the result is either the same prefix of `s`, untouched, or
      it contains the first character of a copy of `rep`. */
  lemma {:induction false} ReplacePrefix(t: string, pat: string, rep: string, k: nat)
    requires |pat| > 0 && |rep| > 0 && k <= |Replace(t, pat, rep)|
    ensures (k <= |t| && Replace(t, pat, rep)[..k] == t[..k]) ||
            (exists j :: 0 <= j < k && Replace(t, pat, rep)[j] == rep[0])
    decreases |t|
  {
    var r := Replace(t, pat, rep);
    if k == 0 || |t| < |pat| {
    } else if t[..|pat|] == pat {
      assert r[0] == rep[0];
    } else {
      var r' := Replace(t[1..], pat, rep);
      assert r == [t[0]] + r';
      ReplacePrefix(t[1..], pat, rep, k - 1);
      if k - 1 <= |t[1..]| && r'[..k - 1] == t[1..][..k - 1] {
        assert r[..k] == [t[0]] + r'[..k - 1];
        assert t[..k] == [t[0]] + t[1..][..k - 1];
      } else {
        var j :| 0 <= j < k - 1 && r'[j] == rep[0];
        assert r[j + 1] == rep[0];
      }
    }
  }

  lemma OccursInSuffix(s: string, d: nat, q: string)
    requires d <= |s| && Occurs(s[d..], q)
    ensures Occurs(s, q)
  {
    var i :| At(s[d..], i, q);
    assert s[d..][i..i + |q|] == s[i + d..i + d + |q|];
    assert At(s, i + d, q);
  }

  /** A copy of `rep` in front of a string without `q` creates no occurrence of `q`. */
  lemma NoOccurrenceAfterRep(rep: string, r: string, q: string)
    requires |rep| > 0 && |q| > 0 && rep[0] !in q && q[0] !in rep
    requires !Occurs(r, q)
    ensures !Occurs(rep + r, q)
  {
    forall i | 0 <= i ensures !At(rep + r, i, q) {
      if i >= |rep| && i + |q| <= |rep + r| {
        assert (rep + r)[i..i + |q|] == r[i - |rep|..i - |rep| + |q|];
        assert !At(r, i - |rep|, q);
      }
    }
  }

  /** A character kept by Replace creates no occurrence of `q` at the front of
      the result, unless `q` already started at that character. */
  lemma NotAtFrontAfterChar(c: char, t: string, pat: string, rep: string, q: string)
    requires |pat| > 0 && |rep| > 0 && |q| > 0 && rep[0] !in q
    requires !At([c] + t, 0, q)
    ensures !At([c] + Replace(t, pat, rep), 0, q)
  {
    var r' := Replace(t, pat, rep);
    var r := [c] + r';
    if |q| <= |r| {
      ReplacePrefix(t, pat, rep, |q| - 1);
      if |q| - 1 <= |t| && r'[..|q| - 1] == t[..|q| - 1] {
        assert r[..|q|] == [c] + r'[..|q| - 1];
        assert ([c] + t)[..|q|] == [c] + t[..|q| - 1];
      } else {
        var j :| 0 <= j < |q| - 1 && r'[j] == rep[0];
        assert r[j + 1] == r'[j];
      }
    }
  }

  lemma NoOccurrenceAfterChar(c: char, t: string, pat: string, rep: string, q: string)
    requires |pat| > 0 && |rep| > 0 && |q| > 0 && rep[0] !in q
    requires !Occurs(Replace(t, pat, rep), q) && !At([c] + t, 0, q)
    ensures !Occurs([c] + Replace(t, pat, rep), q)
  {
    var r' := Replace(t, pat, rep);
    NotAtFrontAfterChar(c, t, pat, rep, q);
    forall i | 1 <= i ensures !At([c] + r', i, q) {
      if i + |q| <= |[c] + r'| {
        assert ([c] + r')[i..i + |q|] == r'[i - 1..i - 1 + |q|];
        assert !At(r', i - 1, q);
      }
    }
  }

  /** Replacing `pat` by `rep` leaves no occurrence of `q`, when `q` is `pat`
      itself or did not occur before, and no copy of `rep` can be part of an
      occurrence of `q` (its first character is not in `q`, and `q` cannot
      start inside it). */
  lemma {:induction false} ReplaceNoOccurrence(s: string, pat: string, rep: string, q: string)
    requires |pat| > 0 && |rep| > 0 && |q| > 0
    requires rep[0] !in q && q[0] !in rep
    requires q == pat || !Occurs(s, q)
    ensures !Occurs(Replace(s, pat, rep), q)
    decreases |s|
  {
    if |s| < |pat| {
      if q == pat {
        assert forall i :: !At(s, i, q);
      }
    } else if s[..|pat|] == pat {
      if q != pat && Occurs(s[|pat|..], q) {
        OccursInSuffix(s, |pat|, q);
      }
      ReplaceNoOccurrence(s[|pat|..], pat, rep, q);
      NoOccurrenceAfterRep(rep, Replace(s[|pat|..], pat, rep), q);
    } else {
      if q != pat && Occurs(s[1..], q) {
        OccursInSuffix(s, 1, q);
      }
      ReplaceNoOccurrence(s[1..], pat, rep, q);
      assert s == [s[0]] + s[1..];
      NoOccurrenceAfterChar(s[0], s[1..], pat, rep, q);
    }
  }
}
