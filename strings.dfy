/** The few Python string operations the plotting script relies on: the
    substring test `t in s`, `s.replace(old, new)`, `s.split(c)`,
    `sep.join(parts)` and `os.path.basename`. Strings are sequences of
    characters; nothing here depends on an encoding. */
module Strings {

  /** `s.startswith(p)` */
  predicate StartsWith(s: string, p: string) {
    |p| <= |s| && s[..|p|] == p
  }

  /** Python's `t in s`: `t` occurs somewhere in `s` (the empty string occurs
      everywhere). */
  predicate Contains(s: string, t: string)
    decreases |s|
  {
    StartsWith(s, t) || (|s| > 0 && Contains(s[1..], t))
  }

  /** An occurrence of `t` in `s` at position `i`. */
  ghost predicate OccursAt(s: string, t: string, i: int) {
    0 <= i && i + |t| <= |s| && s[i..i + |t|] == t
  }

  /** An occurrence at a position is found by the left-to-right scan. */
  lemma {:induction false} OccurrenceFound(s: string, t: string, i: int)
    requires OccursAt(s, t, i)
    ensures Contains(s, t)
    decreases i
  {
    if i > 0 {
      assert s[1..][i - 1..i - 1 + |t|] == s[i..i + |t|];
      OccurrenceFound(s[1..], t, i - 1);
    }
  }

  /** `Contains` is exactly "there is a position where `t` occurs". */
  lemma {:induction false} ContainsIff(s: string, t: string)
    ensures Contains(s, t) <==> exists i :: OccursAt(s, t, i)
    decreases |s|
  {
    if StartsWith(s, t) {
      assert OccursAt(s, t, 0);
    } else if Contains(s, t) {
      ContainsIff(s[1..], t);
      var i :| OccursAt(s[1..], t, i);
      assert s[i + 1..i + 1 + |t|] == s[1..][i..i + |t|];
      assert OccursAt(s, t, i + 1);
    }
    forall i | OccursAt(s, t, i) ensures Contains(s, t) {
      OccurrenceFound(s, t, i);
    }
  }

  /** Every character of an occurring string is a character of `s`; so if
      some character of `t` never appears in `s`, `t` does not occur in `s`.
      This is how the concrete file names below are refuted. */
  lemma MissingChar(s: string, t: string, k: int)
    requires 0 <= k < |t|
    ensures Contains(s, t) ==> t[k] in s
  {
    ContainsIff(s, t);
    if Contains(s, t) {
      var i :| OccursAt(s, t, i);
      assert s[i..i + |t|][k] == s[i + k];
    }
  }

  /** An occurrence in a part is an occurrence in the whole. */
  lemma ContainsInConcat(a: string, b: string, t: string)
    ensures Contains(a, t) ==> Contains(a + b, t)
    ensures Contains(b, t) ==> Contains(a + b, t)
  {
    ContainsIff(a, t);
    ContainsIff(b, t);
    ContainsIff(a + b, t);
    if Contains(a, t) {
      var i :| OccursAt(a, t, i);
      assert (a + b)[i..i + |t|] == a[i..i + |t|];
      assert OccursAt(a + b, t, i);
    }
    if Contains(b, t) {
      var i :| OccursAt(b, t, i);
      assert (a + b)[|a| + i..|a| + i + |t|] == b[i..i + |t|];
      assert OccursAt(a + b, t, |a| + i);
    }
  }

  lemma ConcatAssociates(a: string, b: string, c: string)
    ensures a + b + c == a + (b + c)
  {
  }

  lemma TailOfConcat(a: string, b: string)
    requires 0 < |a|
    ensures (a + b)[1..] == a[1..] + b
  {
  }

  lemma MissingFromConcat(x: char, a: string, b: string)
    requires x !in a && x !in b
    ensures x !in a + b
  {
  }

  /** Python's `s.replace(pat, rep)`: every non-overlapping occurrence of
      `pat`, scanned from the left, is replaced by `rep`. With an empty `pat`
      Python inserts `rep` before every character and at the end. */
  function ReplaceAll(s: string, pat: string, rep: string): string
    decreases |s|
  {
    if |pat| == 0 then
      if s == [] then rep else rep + [s[0]] + ReplaceAll(s[1..], pat, rep)
    else if |s| < |pat| then s
    else if s[..|pat|] == pat then rep + ReplaceAll(s[|pat|..], pat, rep)
    else [s[0]] + ReplaceAll(s[1..], pat, rep)
  }

  /** Replacing a non-empty pattern that does not occur changes nothing. */
  lemma {:induction false} ReplaceAbsent(s: string, pat: string, rep: string)
    requires |pat| > 0 && !Contains(s, pat)
    ensures ReplaceAll(s, pat, rep) == s
    decreases |s|
  {
    if |s| >= |pat| {
      assert !StartsWith(s, pat);
      ReplaceAbsent(s[1..], pat, rep);
    }
  }

  /** Replacing a non-empty pattern by itself changes nothing. */
  lemma {:induction false} ReplaceBySelf(s: string, pat: string)
    requires |pat| > 0
    ensures ReplaceAll(s, pat, pat) == s
    decreases |s|
  {
    if |s| >= |pat| {
      if s[..|pat|] == pat {
        ReplaceBySelf(s[|pat|..], pat);
        assert s == s[..|pat|] + s[|pat|..];
      } else {
        ReplaceBySelf(s[1..], pat);
        assert s == [s[0]] + s[1..];
      }
    }
  }

  /** Deleting a non-empty pattern never makes a string longer. */
  lemma {:induction false} DeleteShrinks(s: string, pat: string)
    requires |pat| > 0
    ensures |ReplaceAll(s, pat, "")| <= |s|
    decreases |s|
  {
    if |s| >= |pat| {
      if s[..|pat|] == pat {
        DeleteShrinks(s[|pat|..], pat);
      } else {
        DeleteShrinks(s[1..], pat);
      }
    }
  }

  /** A string shorter than a non-empty pattern is left as it is. */
  lemma ReplaceAbsentShort(s: string, pat: string, rep: string)
    requires 0 < |pat| && |s| < |pat|
    ensures ReplaceAll(s, pat, rep) == s
  {
  }

  /** A prefix whose characters cannot start the pattern is copied through. */
  lemma {:induction false} ReplacePassesPrefix(a: string, s: string, pat: string, rep: string)
    requires |pat| > 0 && pat[0] !in a
    ensures ReplaceAll(a + s, pat, rep) == a + ReplaceAll(s, pat, rep)
    decreases |a|
  {
    if a != [] {
      var w := a + s;
      assert w[0] == a[0] && a[0] in a && a[0] != pat[0];
      assert w[1..] == a[1..] + s;
      ReplacePassesPrefix(a[1..], s, pat, rep);
      if |w| >= |pat| {
        assert w[..|pat|][0] == a[0];
        assert ReplaceAll(w, pat, rep) == [a[0]] + ReplaceAll(w[1..], pat, rep);
      } else {
        ReplaceAbsentShort(w, pat, rep);
        ReplaceAbsentShort(s, pat, rep);
      }
      assert a == [a[0]] + a[1..];
    } else {
      assert a + s == s;
    }
  }

  /** Python's `s.split(c)`: the fields between occurrences of `c`; there is
      always at least one field. */
  function Split(s: string, c: char): (fields: seq<string>)
    ensures |fields| >= 1
    decreases |s|
  {
    if s == [] then [""]
    else if s[0] == c then [""] + Split(s[1..], c)
    else
      var rest := Split(s[1..], c);
      [[s[0]] + rest[0]] + rest[1..]
  }

  /** `sep.join(parts)` */
  function Join(parts: seq<string>, sep: string): string {
    if parts == [] then ""
    else if |parts| == 1 then parts[0]
    else parts[0] + sep + Join(parts[1..], sep)
  }

  /** Splitting undoes nothing and loses nothing: joining the fields with the
      separator gives back the string, and no field holds the separator. */
  lemma {:induction false} SplitJoin(s: string, c: char)
    ensures Join(Split(s, c), [c]) == s
    ensures forall k :: 0 <= k < |Split(s, c)| ==> c !in Split(s, c)[k]
    decreases |s|
  {
    if s != [] {
      SplitJoin(s[1..], c);
      var rest := Split(s[1..], c);
      if s[0] == c {
        assert Split(s, c) == [""] + rest;
        assert Join([""] + rest, [c]) == "" + [c] + Join(rest, [c]);
        assert s == [c] + s[1..];
      } else {
        var fields := Split(s, c);
        assert fields == [[s[0]] + rest[0]] + rest[1..];
        if |rest| == 1 {
          assert s == [s[0]] + rest[0];
        } else {
          assert fields[1..] == rest[1..];
          assert Join(rest, [c]) == rest[0] + [c] + Join(rest[1..], [c]);
          assert s == [s[0]] + s[1..];
        }
        forall k | 0 <= k < |fields| ensures c !in fields[k] {
          if k == 0 {
            assert c !in rest[0];
          } else {
            assert fields[k] == rest[k];
          }
        }
      }
    }
  }

  /** A string without the separator is a single field. */
  lemma {:induction false} SplitNoSeparator(s: string, c: char)
    requires c !in s
    ensures Split(s, c) == [s]
    decreases |s|
  {
    if s != [] {
      assert c !in s[1..];
      SplitNoSeparator(s[1..], c);
      assert s == [s[0]] + s[1..];
    }
  }

  /** Splitting at a separator splits the fields: the last field before it
      ends there, and the fields after it are those of the rest. */
  lemma {:induction false} SplitAround(a: string, b: string, c: char)
    ensures Split(a + [c] + b, c) == Split(a, c) + Split(b, c)
    decreases |a|
  {
    if a == [] {
      assert a + [c] + b == [c] + b;
      assert ([c] + b)[1..] == b;
    } else {
      var w := a + [c] + b;
      assert w[0] == a[0];
      assert w[1..] == a[1..] + [c] + b;
      SplitAround(a[1..], b, c);
      if a[0] == c {
        assert a[1..] == a[1..];
      }
    }
  }

  /** The text after the last occurrence of `c` (all of `s` when there is
      none): `s.split(c)[-1]`. */
  function LastField(s: string, c: char): string {
    var fields := Split(s, c);
    fields[|fields| - 1]
  }

  /** `os.path.basename(path)`: what follows the last `/`. */
  function Basename(path: string): (name: string)
    ensures '/' !in name
  {
    SplitJoin(path, '/');
    LastField(path, '/')
  }

  /** The basename is a suffix of the path and is all of it when the path has
      no directory part. */
  lemma BasenameIsSuffix(path: string)
    ensures Contains(path, Basename(path))
    ensures '/' !in path ==> Basename(path) == path
  {
    var fields := Split(path, '/');
    SplitJoin(path, '/');
    JoinLastIsSuffix(fields, "/");
    if '/' !in path {
      SplitNoSeparator(path, '/');
    }
  }

  /** The last part of a join ends the joined string. */
  lemma {:induction false} JoinLastIsSuffix(parts: seq<string>, sep: string)
    requires |parts| >= 1
    ensures Contains(Join(parts, sep), parts[|parts| - 1])
  {
    if |parts| == 1 {
      assert StartsWith(parts[0], parts[0]);
    } else {
      JoinLastIsSuffix(parts[1..], sep);
      assert parts[1..][|parts| - 2] == parts[|parts| - 1];
      ContainsInConcat(parts[0] + sep, Join(parts[1..], sep), parts[|parts| - 1]);
      assert Join(parts, sep) == (parts[0] + sep) + Join(parts[1..], sep);
    }
  }

  /** The last field after a separator is the last field of what follows. */
  lemma LastFieldAfter(a: string, b: string, c: char)
    ensures LastField(a + [c] + b, c) == LastField(b, c)
  {
    SplitAround(a, b, c);
  }

  /** A string without the separator is its own last field. */
  lemma LastFieldOfPlain(b: string, c: char)
    requires c !in b
    ensures LastField(b, c) == b
  {
    SplitNoSeparator(b, c);
  }

  /** An occurrence of the pattern at the front is replaced. */
  lemma ReplaceAtStart(pat: string, s: string, rep: string)
    requires |pat| > 0
    ensures ReplaceAll(pat + s, pat, rep) == rep + ReplaceAll(s, pat, rep)
  {
    assert (pat + s)[..|pat|] == pat;
    assert (pat + s)[|pat|..] == s;
  }

  /** A pattern one of whose characters is missing from `s` leaves `s` as it
      is. */
  lemma ReplaceMissing(s: string, pat: string, rep: string, k: int)
    requires 0 <= k < |pat| && pat[k] !in s
    ensures ReplaceAll(s, pat, rep) == s
  {
    MissingChar(s, pat, k);
    ReplaceAbsent(s, pat, rep);
  }

  /** A prefix at none of whose positions the pattern starts is copied
      through. */
  lemma {:induction false} ReplaceKeepsPrefix(a: string, s: string, pat: string, rep: string)
    requires |pat| > 0
    requires forall i :: 0 <= i < |a| ==> !OccursAt(a + s, pat, i)
    ensures ReplaceAll(a + s, pat, rep) == a + ReplaceAll(s, pat, rep)
    decreases |a|
  {
    var w := a + s;
    if a == [] {
      assert w == s;
    } else if |w| < |pat| {
      ReplaceAbsentShort(w, pat, rep);
      ReplaceAbsentShort(s, pat, rep);
    } else {
      var rest := a[1..] + s;
      assert w[1..] == rest;
      forall i | 0 <= i < |a[1..]| ensures !OccursAt(rest, pat, i) {
        OccursShift(w, pat, i);
      }
      ReplaceKeepsPrefix(a[1..], s, pat, rep);
      ReplaceStepNoMatch(w, pat, rep);
      assert a == [a[0]] + a[1..];
    }
  }

  /** Without a match at the front, the scan copies the first character. */
  lemma ReplaceStepNoMatch(w: string, pat: string, rep: string)
    requires 0 < |pat| <= |w| && !OccursAt(w, pat, 0)
    ensures ReplaceAll(w, pat, rep) == [w[0]] + ReplaceAll(w[1..], pat, rep)
  {
  }

  lemma OccursShift(w: string, pat: string, i: int)
    requires |w| > 0 && 0 <= i
    ensures OccursAt(w[1..], pat, i) <==> OccursAt(w, pat, i + 1)
  {
    if i + |pat| <= |w[1..]| {
      assert w[1..][i..i + |pat|] == w[i + 1..i + 1 + |pat|];
    }
  }

  /** A pattern whose second character differs from its first and does not
      occur in `a` only matches at the end of `a + pat`. */
  lemma ReplaceSuffix(a: string, pat: string, rep: string)
    requires |pat| >= 2 && pat[1] != pat[0] && pat[1] !in a
    ensures ReplaceAll(a + pat, pat, rep) == a + rep
  {
    var w := a + pat;
    forall i | 0 <= i < |a| ensures !OccursAt(w, pat, i) {
      if i + |pat| <= |w| {
        assert w[i..i + |pat|][1] == w[i + 1];
        if i + 1 < |a| {
          assert w[i + 1] == a[i + 1];
        } else {
          assert w[i + 1] == pat[0];
        }
      }
    }
    ReplaceKeepsPrefix(a, pat, pat, rep);
    ReplaceAtStart(pat, [], rep);
    assert pat + [] == pat;
    assert rep + [] == rep;
  }

  /** A string as long as the pattern but different from it is left as it
      is. */
  lemma ReplaceSameLength(w: string, pat: string, rep: string)
    requires 0 < |pat| == |w| && w != pat
    ensures ReplaceAll(w, pat, rep) == w
  {
    assert w[..|pat|] == w;
    ReplaceAbsentShort(w[1..], pat, rep);
    assert [w[0]] + w[1..] == w;
  }

  /** A string that does not start with the pattern, and whose other
      characters never start it, is left as it is. */
  lemma ReplaceMissesFront(w: string, pat: string, rep: string)
    requires 0 < |pat| && 0 < |w| && pat[0] !in w[1..]
    requires !(|pat| <= |w| && w[..|pat|] == pat)
    ensures ReplaceAll(w, pat, rep) == w
  {
    if |pat| <= |w| {
      ReplaceMissing(w[1..], pat, rep, 0);
      assert [w[0]] + w[1..] == w;
    }
  }
}
