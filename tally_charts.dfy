/** What the three purity reports make of their tallies once every file has
    been read: the categories each bar series shows, the value of each bar
    (purity, or raw numerator), the 4F/5F ratio and the tick labels. */
module TallyCharts {
  import opened Strings
  import opened Results
  import opened Histograms
  import opened Tallies
  import opened TallyReports

  /** `[key for key in keys if p(key)]` */
  function Select(keys: seq<string>, p: string -> bool): (r: seq<string>)
    ensures |r| <= |keys|
  {
    if keys == [] then []
    else if p(keys[0]) then [keys[0]] + Select(keys[1..], p)
    else Select(keys[1..], p)
  }

  /** The selection holds exactly the keys that pass the test. */
  lemma {:induction false} SelectMembers(keys: seq<string>, p: string -> bool)
    ensures forall k :: k in Select(keys, p) <==> k in keys && p(k)
    decreases |keys|
  {
    if keys != [] {
      SelectMembers(keys[1..], p);
      assert keys == [keys[0]] + keys[1..];
    }
  }

  /** The series of `plot_purity_multiregion` (lines 339-341) and
      `compare_FSs` (lines 451-452). */
  predicate IsControlRegionKey(k: string) { Contains(k, "CR") && !Contains(k, "fscore") }
  predicate IsFscoreKey(k: string) { Contains(k, "fscore") || Contains(k, "Wcb_CR") }
  predicate IsSignalRegionKey(k: string) { Contains(k, "SR") }
  predicate IsFourFlavourKey(k: string) { Contains(k, "4F") }
  predicate IsFiveFlavourKey(k: string) { Contains(k, "5F") }

  /** The bar heights for some keys: numerators in raw mode, purities
      otherwise. */
  function Values(table: map<string, Tally>, labels: seq<string>, raw: bool): (v: seq<real>)
    requires forall k :: k in labels ==> k in table
    ensures |v| == |labels|
    ensures forall i :: 0 <= i < |labels| ==> v[i] == Shown(table[labels[i]], raw)
  {
    seq(|labels|, i requires 0 <= i < |labels| => Shown(table[labels[i]], raw))
  }

  /** Shown values of valid tallies: purities lie in [0, 1] and raw values
      are the numerators, never negative. */
  lemma ShownIsBounded(t: Tally, raw: bool)
    requires Valid(t)
    ensures raw ==> Shown(t, raw) == t.num && Shown(t, raw) >= 0.0
    ensures !raw ==> 0.0 <= Shown(t, raw) <= 1.0
  {
    PurityIsFraction(t);
  }

  /** The class renamings every report applies last, in the script's order. */
  function BeautifyClasses(s: string): string {
    var s1 := ReplaceAll(s, "tt_Wcb", "Wcb");
    var s2 := ReplaceAll(s1, "ttLF", "tt+LF");
    var s3 := ReplaceAll(s2, "ttbb", "tt+bb");
    var s4 := ReplaceAll(s3, "ttbj", "tt+bj");
    var s5 := ReplaceAll(s4, "ttcc", "tt+cc");
    ReplaceAll(s5, "ttcj", "tt+cj")
  }

  /** Tick labels of `plot_purity` (lines 241-247). */
  function PurityLabel(key: string): string {
    BeautifyClasses(ReplaceAll(key, "h_score_", ""))
  }

  /** Tick labels of `plot_purity_multiregion` (lines 354-361). */
  function RegionLabel(key: string): string {
    BeautifyClasses(ReplaceAll(ReplaceAll(key, "h_score_", ""), "_CR", ""))
  }

  /** Tick labels of `compare_FSs` (lines 465-473). */
  function SchemeLabel(key: string): string {
    BeautifyClasses(ReplaceAll(ReplaceAll(ReplaceAll(key, "h_score_", ""), "h_fscore_", ""), "_4F", ""))
  }

  function Relabel(keys: seq<string>, name: string -> string): (r: seq<string>)
    ensures |r| == |keys| && forall i :: 0 <= i < |keys| ==> r[i] == name(keys[i])
  {
    seq(|keys|, i requires 0 <= i < |keys| => name(keys[i]))
  }

  /** The class fields of the keys, and the names the renamings give them. */
  const ClassFields := ["tt_Wcb", "ttLF", "ttbb", "ttbj", "ttcc", "ttcj"]
  const ClassLabels := ["Wcb", "tt+LF", "tt+bb", "tt+bj", "tt+cc", "tt+cj"]

  /** Each class field is renamed by its own rule and by no other. */
  lemma BeautifyClassField(i: int)
    requires 0 <= i < |ClassFields|
    ensures BeautifyClasses(ClassFields[i]) == ClassLabels[i]
  {
    if i == 0 {
      BeautifyWcb(ClassFields[i]);
    } else if i == 1 {
      BeautifyTtLF(ClassFields[i]);
    } else if i == 2 {
      BeautifyTtbb(ClassFields[i]);
    } else if i == 3 {
      BeautifyTtbj(ClassFields[i]);
    } else if i == 4 {
      BeautifyTtcc(ClassFields[i]);
    } else {
      BeautifyTtcj(ClassFields[i]);
    }
  }

  /** The rule that matches: the whole field becomes its label. */
  lemma RenameWhole(c: string, name: string)
    requires |c| > 0
    ensures ReplaceAll(c, c, name) == name
  {
    ReplaceAtStart(c, "", name);
    assert c + "" == c;
    ReplaceAbsentShort("", c, name);
    assert name + "" == name;
  }

  lemma BeautifyWcb(c: string)
    requires c == "tt_Wcb"
    ensures BeautifyClasses(c) == "Wcb"
  {
    var l := "Wcb";
    RenameWhole(c, l);
    ReplaceMissing(l, "ttLF", "tt+LF", 0);
    ReplaceMissing(l, "ttbb", "tt+bb", 0);
    ReplaceMissing(l, "ttbj", "tt+bj", 0);
    ReplaceMissing(l, "ttcc", "tt+cc", 0);
    ReplaceMissing(l, "ttcj", "tt+cj", 0);
  }

  lemma BeautifyTtLF(c: string)
    requires c == "ttLF"
    ensures BeautifyClasses(c) == "tt+LF"
  {
    var l := "tt+LF";
    ReplaceMissing(c, "tt_Wcb", "Wcb", 2);
    RenameWhole(c, l);
    ReplaceMissing(l, "ttbb", "tt+bb", 2);
    ReplaceMissing(l, "ttbj", "tt+bj", 2);
    ReplaceMissing(l, "ttcc", "tt+cc", 2);
    ReplaceMissing(l, "ttcj", "tt+cj", 2);
  }

  lemma BeautifyTtbb(c: string)
    requires c == "ttbb"
    ensures BeautifyClasses(c) == "tt+bb"
  {
    var l := "tt+bb";
    ReplaceMissing(c, "tt_Wcb", "Wcb", 2);
    ReplaceMissing(c, "ttLF", "tt+LF", 2);
    RenameWhole(c, l);
    ReplaceMissing(l, "ttbj", "tt+bj", 3);
    ReplaceMissing(l, "ttcc", "tt+cc", 2);
    ReplaceMissing(l, "ttcj", "tt+cj", 2);
  }

  lemma BeautifyTtbj(c: string)
    requires c == "ttbj"
    ensures BeautifyClasses(c) == "tt+bj"
  {
    var l := "tt+bj";
    ReplaceMissing(c, "tt_Wcb", "Wcb", 2);
    ReplaceMissing(c, "ttLF", "tt+LF", 2);
    ReplaceSameLength(c, "ttbb", "tt+bb");
    RenameWhole(c, l);
    ReplaceMissing(l, "ttcc", "tt+cc", 2);
    ReplaceMissing(l, "ttcj", "tt+cj", 2);
  }

  lemma BeautifyTtcc(c: string)
    requires c == "ttcc"
    ensures BeautifyClasses(c) == "tt+cc"
  {
    var l := "tt+cc";
    ReplaceMissing(c, "tt_Wcb", "Wcb", 2);
    ReplaceMissing(c, "ttLF", "tt+LF", 2);
    ReplaceMissing(c, "ttbb", "tt+bb", 2);
    ReplaceMissing(c, "ttbj", "tt+bj", 2);
    RenameWhole(c, l);
    ReplaceMissing(l, "ttcj", "tt+cj", 3);
  }

  lemma BeautifyTtcj(c: string)
    requires c == "ttcj"
    ensures BeautifyClasses(c) == "tt+cj"
  {
    ReplaceMissing(c, "tt_Wcb", "Wcb", 2);
    ReplaceMissing(c, "ttLF", "tt+LF", 2);
    ReplaceMissing(c, "ttbb", "tt+bb", 2);
    ReplaceMissing(c, "ttbj", "tt+bj", 2);
    ReplaceSameLength(c, "ttcc", "tt+cc");
    RenameWhole(c, "tt+cj");
  }

  /** No class field holds an `h`, a `_C` or a `_4`, so the prefix and suffix
      deletions touch only the key's own prefix and suffix. */
  lemma ClassFieldChars(i: int)
    requires 0 <= i < |ClassFields|
    ensures 'h' !in ClassFields[i] && 'C' !in ClassFields[i] && '4' !in ClassFields[i] && |ClassFields[i]| > 0
    ensures 'f' !in ClassFields[i] && 'S' !in ClassFields[i] && ('W' in ClassFields[i] <==> i == 0)
  {
  }

  /** Deleting a prefix that starts with `h` from the prefix followed by a
      class field leaves the field. */
  lemma StripPrefix(prefix: string, i: int)
    requires 0 <= i < |ClassFields| && 0 < |prefix| && prefix[0] == 'h'
    ensures ReplaceAll(prefix + ClassFields[i], prefix, "") == ClassFields[i]
  {
    ClassFieldChars(i);
    ReplaceAtStart(prefix, ClassFields[i], "");
    ReplaceMissing(ClassFields[i], prefix, "", 0);
    assert "" + ClassFields[i] == ClassFields[i];
  }

  /** The tick label of the `plot_purity` key of each class is the class's
      label. */
  lemma PurityLabelOf(i: int)
    requires 0 <= i < |ClassFields|
    ensures PurityLabel("h_score_" + ClassFields[i]) == ClassLabels[i]
  {
    StripPrefix("h_score_", i);
    BeautifyClassField(i);
  }

  lemma PurityLabels()
    ensures Relabel(PurityKeys, PurityLabel) == ClassLabels
  {
    forall i | 0 <= i < |PurityKeys| ensures PurityLabel(PurityKeys[i]) == ClassLabels[i] {
      PurityKeyOf(i);
      PurityLabelOf(i);
    }
  }

  lemma PurityKeyOf(i: int)
    requires 0 <= i < |PurityKeys|
    ensures PurityKeys[i] == "h_score_" + ClassFields[i]
  {
    if i == 0 {
    } else if i == 1 {
    } else if i == 2 {
    } else if i == 3 {
    } else if i == 4 {
    } else {
    }
  }

  /** The tick label of a control-region key of each class is the class's
      label: the prefix and the `_CR` suffix are deleted. */
  lemma RegionLabelOf(i: int)
    requires 0 <= i < |ClassFields|
    ensures RegionLabel("h_score_" + ClassFields[i] + "_CR") == ClassLabels[i]
  {
    var c := ClassFields[i];
    ClassFieldChars(i);
    assert "h_score_" + c + "_CR" == "h_score_" + (c + "_CR");
    ReplaceAtStart("h_score_", c + "_CR", "");
    ReplaceMissing(c + "_CR", "h_score_", "", 0);
    assert "" + (c + "_CR") == c + "_CR";
    ReplaceSuffix(c, "_CR", "");
    assert c + "" == c;
    BeautifyClassField(i);
  }

  /** The tick label of a 4F key of each class, `score` or `fscore`, is the
      class's label. */
  lemma SchemeLabelOf(i: int)
    requires 0 <= i < |ClassFields|
    ensures SchemeLabel("h_score_" + ClassFields[i] + "_4F") == ClassLabels[i]
    ensures SchemeLabel("h_fscore_" + ClassFields[i] + "_4F") == ClassLabels[i]
  {
    ClassFieldChars(i);
    ScoreSchemeLabel(i, ClassFields[i]);
    FscoreSchemeLabel(i, ClassFields[i]);
    BeautifyClassField(i);
  }

  /** A `score` key: the first deletion strips the prefix, the next finds
      nothing, the last strips the suffix. */
  lemma ScoreSchemeLabel(i: int, c: string)
    requires 0 <= i < |ClassFields| && c == ClassFields[i]
    ensures ReplaceAll(ReplaceAll(ReplaceAll("h_score_" + c + "_4F", "h_score_", ""), "h_fscore_", ""), "_4F", "") == c
  {
    ClassFieldChars(i);
    StripBoth("h_score_", "h_fscore_", c, "_4F");
  }

  /** An `fscore` key: the first deletion finds nothing, the next strips the
      prefix, the last strips the suffix. */
  lemma FscoreSchemeLabel(i: int, c: string)
    requires 0 <= i < |ClassFields| && c == ClassFields[i]
    ensures ReplaceAll(ReplaceAll(ReplaceAll("h_fscore_" + c + "_4F", "h_score_", ""), "h_fscore_", ""), "_4F", "") == c
  {
    ClassFieldChars(i);
    StripSecond("h_score_", "h_fscore_", c, "_4F");
  }

  /** Two prefixes that start with `h` and nowhere else, before a field and a
      suffix without an `h`: deleting the first prefix, then the second, then
      the suffix gives the field back, whichever prefix the key has. */
  lemma StripBoth(first: string, second: string, c: string, suffix: string)
    requires 0 < |first| && 0 < |second| && first[0] == 'h' && second[0] == 'h'
    requires 'h' !in c && 'h' !in suffix
    requires |suffix| >= 2 && suffix[1] != suffix[0] && suffix[1] !in c
    ensures ReplaceAll(ReplaceAll(ReplaceAll(first + c + suffix, first, ""), second, ""), suffix, "") == c
  {
    var body := c + suffix;
    assert first + c + suffix == first + body;
    PrefixDeleted(first, body);
    ReplaceMissing(body, second, "", 0);
    StripSuffix(c, suffix);
  }

  lemma StripSecond(first: string, second: string, c: string, suffix: string)
    requires 0 < |first| && 0 < |second| && first[0] == 'h' && second[0] == 'h' && 'h' !in second[1..]
    requires 'h' !in c && 'h' !in suffix
    requires |suffix| >= 2 && suffix[1] != suffix[0] && suffix[1] !in c
    requires 2 < |first| && 2 < |second| && first[2] != second[2]
    ensures ReplaceAll(ReplaceAll(ReplaceAll(second + c + suffix, first, ""), second, ""), suffix, "") == c
  {
    var key := second + c + suffix;
    var stripped := ReplaceAll(ReplaceAll(key, first, ""), second, "");
    assert stripped == c + suffix by {
      var body := c + suffix;
      ConcatAssociates(second, c, suffix);
      SecondPrefixDeleted(first, second, body);
    }
    StripSuffix(c, suffix);
    assert ReplaceAll(stripped, suffix, "") == c;
  }

  /** A key with the second prefix: the first deletion finds nothing, the
      second strips the prefix. */
  lemma SecondPrefixDeleted(first: string, second: string, body: string)
    requires 0 < |first| && 0 < |second| && first[0] == 'h' && second[0] == 'h' && 'h' !in second[1..] && 'h' !in body
    requires 2 < |first| && 2 < |second| && first[2] != second[2]
    ensures ReplaceAll(ReplaceAll(second + body, first, ""), second, "") == body
  {
    PrefixMisses(first, second, body);
    PrefixDeleted(second, body);
  }

  /** A key with another prefix starting with `h`, differing from the first
      at its third character, keeps its own. */
  lemma PrefixMisses(first: string, second: string, body: string)
    requires 0 < |first| && 0 < |second| && first[0] == 'h' && 'h' !in second[1..] && 'h' !in body
    requires 2 < |first| && 2 < |second| && first[2] != second[2]
    ensures ReplaceAll(second + body, first, "") == second + body
  {
    var w := second + body;
    assert 'h' !in w[1..] by {
      TailOfConcat(second, body);
      MissingFromConcat('h', second[1..], body);
    }
    assert !(|first| <= |w| && w[..|first|] == first) by {
      if |first| <= |w| {
        assert w[..|first|][2] == second[2];
      }
    }
    ReplaceMissesFront(w, first, "");
  }

  /** A prefix starting with `h`, before a body without `h`, is deleted. */
  lemma PrefixDeleted(prefix: string, body: string)
    requires 0 < |prefix| && prefix[0] == 'h' && 'h' !in body
    ensures ReplaceAll(prefix + body, prefix, "") == body
  {
    ReplaceAtStart(prefix, body, "");
    ReplaceMissing(body, prefix, "", 0);
    assert "" + body == body;
  }

  lemma StripSuffix(c: string, suffix: string)
    requires |suffix| >= 2 && suffix[1] != suffix[0] && suffix[1] !in c
    ensures ReplaceAll(c + suffix, suffix, "") == c
  {
    ReplaceSuffix(c, suffix, "");
    assert c + "" == c;
  }

  // ---------------------------------------------------------------------
  // Which keys each series shows

  /** Selecting from keys that alternate between kept and dropped, starting
      with a kept one, keeps those at the even positions. */
  lemma {:induction false} SelectEvenPositions(keys: seq<string>, p: string -> bool)
    requires forall j :: 0 <= j < |keys| ==> (p(keys[j]) <==> j % 2 == 0)
    ensures |Select(keys, p)| == (|keys| + 1) / 2
    ensures forall j :: 0 <= j < |Select(keys, p)| ==> Select(keys, p)[j] == keys[2 * j]
    decreases |keys|
  {
    if |keys| == 1 {
      assert p(keys[0]);
      assert Select(keys, p) == [keys[0]] + Select(keys[1..], p);
    } else if |keys| >= 2 {
      assert p(keys[0]) && !p(keys[1]);
      var rest := keys[2..];
      forall j | 0 <= j < |rest| ensures p(rest[j]) <==> j % 2 == 0 {
        assert rest[j] == keys[j + 2];
      }
      SelectEvenPositions(rest, p);
      assert keys[1..][1..] == rest;
      assert Select(keys, p) == [keys[0]] + Select(rest, p);
      forall j | 1 <= j < |Select(keys, p)| ensures Select(keys, p)[j] == keys[2 * j] {
        assert Select(keys, p)[j] == Select(rest, p)[j - 1] == rest[2 * (j - 1)];
      }
    }
  }

  /** The categories of `compare_FSs` without their scheme suffix. */
  const SchemeHeads := ["h_score_tt_Wcb", "h_fscore_ttLF", "h_fscore_ttbb", "h_fscore_ttbj", "h_fscore_ttcc", "h_fscore_ttcj"]

  /** The keys list each category's 4F key and then its 5F key. */
  lemma SchemeKeyAt(j: int)
    requires 0 <= j < |SchemeKeys|
    ensures SchemeKeys[j] == SchemeHeads[j / 2] + (if j % 2 == 0 then "_4F" else "_5F")
    ensures '4' !in SchemeHeads[j / 2] && '5' !in SchemeHeads[j / 2]
  {
    if j < 4 {
      if j == 0 {} else if j == 1 {} else if j == 2 {} else {}
    } else if j < 8 {
      if j == 4 {} else if j == 5 {} else if j == 6 {} else {}
    } else {
      if j == 8 {} else if j == 9 {} else if j == 10 {} else {}
    }
  }

  /** A key ending in `_4F` or `_5F`, with no other digit 4 or 5, names
      exactly that scheme. */
  lemma SchemeOfKey(head: string, scheme: string)
    requires scheme == "4F" || scheme == "5F"
    requires '4' !in head && '5' !in head
    ensures IsFourFlavourKey(head + ("_" + scheme)) <==> scheme == "4F"
    ensures IsFiveFlavourKey(head + ("_" + scheme)) <==> scheme == "5F"
  {
    var k := head + ("_" + scheme);
    assert k[|k| - 2..] == scheme;
    assert OccursAt(k, scheme, |k| - 2);
    OccurrenceFound(k, scheme, |k| - 2);
    assert '4' in k <==> scheme == "4F";
    assert '5' in k <==> scheme == "5F";
    MissingChar(k, "4F", 0);
    MissingChar(k, "5F", 0);
  }

  /** Each key names its own scheme: the even positions 4F, the odd 5F. */
  lemma SchemeKeyParity(j: int)
    requires 0 <= j < |SchemeKeys|
    ensures IsFourFlavourKey(SchemeKeys[j]) <==> j % 2 == 0
    ensures IsFiveFlavourKey(SchemeKeys[j]) <==> j % 2 == 1
  {
    SchemeKeyAt(j);
    var scheme := if j % 2 == 0 then "4F" else "5F";
    assert (if j % 2 == 0 then "_4F" else "_5F") == "_" + scheme;
    SchemeOfKey(SchemeHeads[j / 2], scheme);
  }

  /** Keys alternating between a selected and an unselected one, the
      selected ones a head each with a common suffix: the selection is the
      heads with that suffix. */
  lemma EvenSeries(keys: seq<string>, heads: seq<string>, p: string -> bool, suffix: string)
    requires |keys| == 2 * |heads|
    requires forall j :: 0 <= j < |keys| ==> (p(keys[j]) <==> j % 2 == 0)
    requires forall i :: 0 <= i < |heads| ==> keys[2 * i] == heads[i] + suffix
    ensures |Select(keys, p)| == |heads|
    ensures forall i :: 0 <= i < |heads| ==> Select(keys, p)[i] == heads[i] + suffix
  {
    SelectEvenPositions(keys, p);
  }

  lemma OddSeries(keys: seq<string>, heads: seq<string>, p: string -> bool, suffix: string)
    requires |keys| == 2 * |heads|
    requires forall j :: 0 <= j < |keys| ==> (p(keys[j]) <==> j % 2 == 1)
    requires forall i :: 0 <= i < |heads| ==> keys[2 * i + 1] == heads[i] + suffix
    ensures |Select(keys, p)| == |heads|
    ensures forall i :: 0 <= i < |heads| ==> Select(keys, p)[i] == heads[i] + suffix
  {
    if keys != [] {
      var odd := keys[1..];
      forall j | 0 <= j < |odd| ensures p(odd[j]) <==> j % 2 == 0 {
        assert odd[j] == keys[j + 1];
      }
      SelectEvenPositions(odd, p);
      assert !p(keys[0]);
      assert Select(keys, p) == Select(odd, p);
      forall i | 0 <= i < |heads| ensures Select(keys, p)[i] == heads[i] + suffix {
        assert odd[2 * i] == keys[2 * i + 1];
      }
    }
  }

  /** The 4F series shows the 4F keys and the 5F series the 5F keys, in the
      same category order. */
  lemma SchemeSeries()
    ensures |Select(SchemeKeys, IsFourFlavourKey)| == |Select(SchemeKeys, IsFiveFlavourKey)| == |SchemeHeads|
    ensures forall i :: 0 <= i < |SchemeHeads| ==>
      Select(SchemeKeys, IsFourFlavourKey)[i] == SchemeHeads[i] + "_4F" &&
      Select(SchemeKeys, IsFiveFlavourKey)[i] == SchemeHeads[i] + "_5F"
  {
    SchemeKinds();
    SchemeKeyPairs();
    EvenSeries(SchemeKeys, SchemeHeads, IsFourFlavourKey, "_4F");
    OddSeries(SchemeKeys, SchemeHeads, IsFiveFlavourKey, "_5F");
  }

  lemma SchemeKinds()
    ensures forall j :: 0 <= j < |SchemeKeys| ==>
      (IsFourFlavourKey(SchemeKeys[j]) <==> j % 2 == 0) && (IsFiveFlavourKey(SchemeKeys[j]) <==> j % 2 == 1)
  {
    forall j | 0 <= j < |SchemeKeys|
      ensures (IsFourFlavourKey(SchemeKeys[j]) <==> j % 2 == 0) && (IsFiveFlavourKey(SchemeKeys[j]) <==> j % 2 == 1)
    {
      SchemeKeyParity(j);
    }
  }

  lemma SchemeKeyPairs()
    ensures forall i :: 0 <= i < |SchemeHeads| ==>
      SchemeKeys[2 * i] == SchemeHeads[i] + "_4F" && SchemeKeys[2 * i + 1] == SchemeHeads[i] + "_5F"
  {
    forall i | 0 <= i < |SchemeHeads|
      ensures SchemeKeys[2 * i] == SchemeHeads[i] + "_4F" && SchemeKeys[2 * i + 1] == SchemeHeads[i] + "_5F"
    {
      SchemeKeyAt(2 * i);
      SchemeKeyAt(2 * i + 1);
      assert (2 * i) / 2 == (2 * i + 1) / 2 == i && (2 * i) % 2 == 0 && (2 * i + 1) % 2 == 1;
    }
  }

  /** The `compare_FSs` tick labels are the class labels. */
  lemma SchemeLabels()
    ensures Relabel(Select(SchemeKeys, IsFourFlavourKey), SchemeLabel) == ClassLabels
  {
    SchemeSeries();
    forall i | 0 <= i < |SchemeHeads|
      ensures SchemeLabel(Select(SchemeKeys, IsFourFlavourKey)[i]) == ClassLabels[i]
    {
      SchemeLabelOf(i);
      SchemeHeadOf(i);
    }
  }

  lemma SchemeHeadOf(i: int)
    requires 0 <= i < |SchemeHeads|
    ensures SchemeHeads[i] == (if i == 0 then "h_score_" else "h_fscore_") + ClassFields[i]
  {
    if i == 0 {} else if i == 1 {} else if i == 2 {} else if i == 3 {} else if i == 4 {} else {}
  }

  /** Appending key lists appends their selections. */
  lemma {:induction false} SelectAppend(a: seq<string>, b: seq<string>, p: string -> bool)
    ensures Select(a + b, p) == Select(a, p) + Select(b, p)
    decreases |a|
  {
    if a == [] {
      assert a + b == b;
    } else {
      assert (a + b)[0] == a[0] && (a + b)[1..] == a[1..] + b;
      SelectAppend(a[1..], b, p);
    }
  }

  lemma {:induction false} SelectAll(keys: seq<string>, p: string -> bool)
    requires forall j :: 0 <= j < |keys| ==> p(keys[j])
    ensures Select(keys, p) == keys
    decreases |keys|
  {
    if keys != [] {
      SelectAll(keys[1..], p);
    }
  }

  lemma {:induction false} SelectNone(keys: seq<string>, p: string -> bool)
    requires forall j :: 0 <= j < |keys| ==> !p(keys[j])
    ensures Select(keys, p) == []
    decreases |keys|
  {
    if keys != [] {
      SelectNone(keys[1..], p);
    }
  }

  /** The first twelve keys of `plot_purity_multiregion` list each class's
      control-region key and then its signal-region key. */
  lemma RegionKeyAt(j: int)
    requires 0 <= j < 12
    ensures MultiRegionKeys[j] == PurityKeys[j / 2] + (if j % 2 == 0 then "_CR" else "_SR")
    ensures 'f' !in PurityKeys[j / 2] && 'S' !in PurityKeys[j / 2] && 'C' !in PurityKeys[j / 2]
    ensures 'W' in PurityKeys[j / 2] <==> j / 2 == 0
  {
    if j < 6 {
      FirstRegionKeys(j);
    } else {
      LastRegionKeys(j);
    }
    PurityKeyChars(j / 2);
  }

  lemma FirstRegionKeys(j: int)
    requires 0 <= j < 6
    ensures MultiRegionKeys[j] == PurityKeys[j / 2] + (if j % 2 == 0 then "_CR" else "_SR")
  {
    if j == 0 {} else if j == 1 {} else if j == 2 {} else if j == 3 {} else if j == 4 {} else {}
  }

  lemma LastRegionKeys(j: int)
    requires 6 <= j < 12
    ensures MultiRegionKeys[j] == PurityKeys[j / 2] + (if j % 2 == 0 then "_CR" else "_SR")
  {
    if j == 6 {} else if j == 7 {} else if j == 8 {} else if j == 9 {} else if j == 10 {} else {}
  }

  /** The score keys hold no `f`, `S` or `C`, and only the first a `W`. */
  lemma PurityKeyChars(i: int)
    requires 0 <= i < |PurityKeys|
    ensures 'f' !in PurityKeys[i] && 'S' !in PurityKeys[i] && 'C' !in PurityKeys[i]
    ensures 'W' in PurityKeys[i] <==> i == 0
  {
    PurityKeyOf(i);
    ClassFieldChars(i);
  }

  /** The last five keys are the `fscore` control-region keys. */
  lemma FscoreKeyAt(j: int)
    requires 12 <= j < |MultiRegionKeys|
    ensures MultiRegionKeys[j] == SchemeHeads[j - 11] + "_CR"
    ensures |SchemeHeads[j - 11]| >= 8 && SchemeHeads[j - 11][2..8] == "fscore" && 'S' !in SchemeHeads[j - 11]
  {
    if j == 12 {} else if j == 13 {} else if j == 14 {} else if j == 15 {} else {}
  }

  /** A control-region score key is in the control-region series only,
      and in the fscore series only when it names `Wcb`. */
  lemma ControlScoreKey(head: string)
    requires 'f' !in head && 'S' !in head
    ensures IsControlRegionKey(head + "_CR") && !IsSignalRegionKey(head + "_CR")
    ensures 'W' !in head ==> !IsFscoreKey(head + "_CR")
  {
    var k := head + "_CR";
    assert OccursAt(k, "CR", |k| - 2);
    OccurrenceFound(k, "CR", |k| - 2);
    assert 'f' !in k && 'S' !in k;
    MissingChar(k, "fscore", 0);
    MissingChar(k, "SR", 0);
    if 'W' !in head {
      assert 'W' !in k;
      MissingChar(k, "Wcb_CR", 0);
    }
  }

  /** A signal-region score key is in the signal-region series only. */
  lemma SignalScoreKey(head: string)
    requires 'f' !in head && 'C' !in head
    ensures IsSignalRegionKey(head + "_SR") && !IsControlRegionKey(head + "_SR") && !IsFscoreKey(head + "_SR")
  {
    var k := head + "_SR";
    assert OccursAt(k, "SR", |k| - 2);
    OccurrenceFound(k, "SR", |k| - 2);
    assert 'f' !in k && 'C' !in k;
    MissingChar(k, "fscore", 0);
    MissingChar(k, "CR", 0);
    MissingChar(k, "Wcb_CR", 4);
  }

  lemma WcbControlKey(k: string)
    requires k == "h_score_tt_Wcb_CR"
    ensures IsFscoreKey(k)
  {
    assert OccursAt(k, "Wcb_CR", |k| - 6);
    OccurrenceFound(k, "Wcb_CR", |k| - 6);
  }

  /** An fscore control-region key belongs to the fscore series only. */
  lemma RegionOfFscoreKey(head: string)
    requires |head| >= 8 && head[2..8] == "fscore" && 'S' !in head
    ensures !IsControlRegionKey(head + "_CR") && !IsSignalRegionKey(head + "_CR") && IsFscoreKey(head + "_CR")
  {
    var k := head + "_CR";
    assert k[2..8] == head[2..8];
    assert OccursAt(k, "fscore", 2);
    OccurrenceFound(k, "fscore", 2);
    assert 'S' !in k;
    MissingChar(k, "SR", 0);
  }

  lemma RegionKeyKinds(j: int)
    requires 0 <= j < |MultiRegionKeys|
    ensures IsControlRegionKey(MultiRegionKeys[j]) <==> j < 12 && j % 2 == 0
    ensures IsSignalRegionKey(MultiRegionKeys[j]) <==> j < 12 && j % 2 == 1
    ensures IsFscoreKey(MultiRegionKeys[j]) <==> j == 0 || 12 <= j
  {
    if j < 12 {
      RegionKeyAt(j);
      if j % 2 == 0 {
        ControlScoreKey(PurityKeys[j / 2]);
        if j == 0 {
          WcbControlKey(MultiRegionKeys[0]);
        }
      } else {
        SignalScoreKey(PurityKeys[j / 2]);
      }
    } else {
      FscoreKeyAt(j);
      RegionOfFscoreKey(SchemeHeads[j - 11]);
    }
  }

  /** The selection from keys whose tail holds no selected key is the
      selection from their head. */
  lemma SelectFromHead(a: seq<string>, b: seq<string>, p: string -> bool)
    requires forall j :: 0 <= j < |b| ==> !p(b[j])
    ensures Select(a + b, p) == Select(a, p)
  {
    SelectAppend(a, b, p);
    SelectNone(b, p);
    assert Select(a, p) + [] == Select(a, p);
  }

  /** Keys whose first `2 * |heads|` alternate between selected and
      unselected ones and whose rest are all unselected: the selection is the
      heads with the common suffix. */
  lemma HeadSeries(keys: seq<string>, heads: seq<string>, p: string -> bool, suffix: string, parity: int)
    requires parity == 0 || parity == 1
    requires 2 * |heads| <= |keys|
    requires forall j :: 0 <= j < |keys| ==> (p(keys[j]) <==> j < 2 * |heads| && j % 2 == parity)
    requires forall i :: 0 <= i < |heads| ==> keys[2 * i + parity] == heads[i] + suffix
    ensures |Select(keys, p)| == |heads|
    ensures forall i :: 0 <= i < |heads| ==> Select(keys, p)[i] == heads[i] + suffix
  {
    var n := 2 * |heads|;
    var a, b := keys[..n], keys[n..];
    assert keys == a + b;
    forall j | 0 <= j < |b| ensures !p(b[j]) {
      assert b[j] == keys[j + n];
    }
    SelectFromHead(a, b, p);
    if parity == 0 {
      EvenSeries(a, heads, p, suffix);
    } else {
      OddSeries(a, heads, p, suffix);
    }
  }

  /** The control-region and signal-region series of
      `plot_purity_multiregion`: each class's `_CR` and `_SR` score keys, in
      class order. */
  lemma RegionSeries()
    ensures |Select(MultiRegionKeys, IsControlRegionKey)| == |Select(MultiRegionKeys, IsSignalRegionKey)| == |PurityKeys|
    ensures forall i :: 0 <= i < |PurityKeys| ==>
      Select(MultiRegionKeys, IsControlRegionKey)[i] == PurityKeys[i] + "_CR" &&
      Select(MultiRegionKeys, IsSignalRegionKey)[i] == PurityKeys[i] + "_SR"
  {
    RegionKinds();
    RegionKeyPairs();
    HeadSeries(MultiRegionKeys, PurityKeys, IsControlRegionKey, "_CR", 0);
    HeadSeries(MultiRegionKeys, PurityKeys, IsSignalRegionKey, "_SR", 1);
  }

  lemma RegionKinds()
    ensures forall j :: 0 <= j < |MultiRegionKeys| ==>
      (IsControlRegionKey(MultiRegionKeys[j]) <==> j < 12 && j % 2 == 0) &&
      (IsSignalRegionKey(MultiRegionKeys[j]) <==> j < 12 && j % 2 == 1) &&
      (IsFscoreKey(MultiRegionKeys[j]) <==> j == 0 || 12 <= j)
  {
    forall j | 0 <= j < |MultiRegionKeys|
      ensures (IsControlRegionKey(MultiRegionKeys[j]) <==> j < 12 && j % 2 == 0)
      ensures (IsSignalRegionKey(MultiRegionKeys[j]) <==> j < 12 && j % 2 == 1)
      ensures (IsFscoreKey(MultiRegionKeys[j]) <==> j == 0 || 12 <= j)
    {
      RegionKeyKinds(j);
    }
  }

  lemma RegionKeyPairs()
    ensures forall i :: 0 <= i < |PurityKeys| ==>
      MultiRegionKeys[2 * i] == PurityKeys[i] + "_CR" && MultiRegionKeys[2 * i + 1] == PurityKeys[i] + "_SR"
  {
    forall i | 0 <= i < |PurityKeys|
      ensures MultiRegionKeys[2 * i] == PurityKeys[i] + "_CR" && MultiRegionKeys[2 * i + 1] == PurityKeys[i] + "_SR"
    {
      RegionKeyAt(2 * i);
      RegionKeyAt(2 * i + 1);
      assert (2 * i) / 2 == (2 * i + 1) / 2 == i && (2 * i) % 2 == 0 && (2 * i + 1) % 2 == 1;
    }
  }

  /** Keys of which the first is selected, the next `n - 1` are not and
      the rest all are: the selection is the first key and then the rest. */
  lemma FirstAndTailSeries(keys: seq<string>, n: int, heads: seq<string>, p: string -> bool, suffix: string)
    requires 0 < n <= |keys| && |keys| == n + |heads| - 1
    requires forall j :: 0 <= j < |keys| ==> (p(keys[j]) <==> j == 0 || n <= j)
    requires keys[0] == heads[0] + suffix
    requires forall i :: 1 <= i < |heads| ==> keys[n + i - 1] == heads[i] + suffix
    ensures |Select(keys, p)| == |heads|
    ensures forall i :: 0 <= i < |heads| ==> Select(keys, p)[i] == heads[i] + suffix
  {
    var a, b := keys[..n], keys[n..];
    assert keys == a + b;
    forall j | 1 <= j < |a| ensures !p(a[j]) {
      assert a[j] == keys[j];
    }
    forall j | 0 <= j < |b| ensures p(b[j]) {
      assert b[j] == keys[j + n];
    }
    SelectFirstAndTail(a, b, p);
    forall i | 1 <= i < |heads| ensures Select(keys, p)[i] == heads[i] + suffix {
      assert Select(keys, p)[i] == b[i - 1] == keys[n + i - 1];
    }
  }

  lemma SelectFirstAndTail(a: seq<string>, b: seq<string>, p: string -> bool)
    requires |a| > 0 && p(a[0])
    requires forall j :: 1 <= j < |a| ==> !p(a[j])
    requires forall j :: 0 <= j < |b| ==> p(b[j])
    ensures Select(a + b, p) == [a[0]] + b
  {
    SelectAppend(a, b, p);
    forall j | 0 <= j < |a[1..]| ensures !p(a[1..][j]) {
      assert a[1..][j] == a[j + 1];
    }
    SelectNone(a[1..], p);
    SelectAll(b, p);
    assert Select(a, p) == [a[0]] + [];
  }

  /** The fscore series: the `Wcb` control-region score key, then the
      fscore control-region key of every other class, in class order. */
  lemma FscoreSeries()
    ensures |Select(MultiRegionKeys, IsFscoreKey)| == |SchemeHeads|
    ensures forall i :: 0 <= i < |SchemeHeads| ==> Select(MultiRegionKeys, IsFscoreKey)[i] == SchemeHeads[i] + "_CR"
  {
    FscoreKinds();
    FscoreKeyPairs();
    FirstAndTailSeries(MultiRegionKeys, 12, SchemeHeads, IsFscoreKey, "_CR");
  }

  lemma FscoreKinds()
    ensures forall j :: 0 <= j < |MultiRegionKeys| ==> (IsFscoreKey(MultiRegionKeys[j]) <==> j == 0 || 12 <= j)
  {
    forall j | 0 <= j < |MultiRegionKeys| ensures IsFscoreKey(MultiRegionKeys[j]) <==> j == 0 || 12 <= j {
      RegionKeyKinds(j);
    }
  }

  lemma FscoreKeyPairs()
    ensures MultiRegionKeys[0] == SchemeHeads[0] + "_CR"
    ensures forall i :: 1 <= i < |SchemeHeads| ==> MultiRegionKeys[12 + i - 1] == SchemeHeads[i] + "_CR"
  {
    RegionKeyAt(0);
    assert PurityKeys[0] == SchemeHeads[0];
    forall i | 1 <= i < |SchemeHeads| ensures MultiRegionKeys[12 + i - 1] == SchemeHeads[i] + "_CR" {
      FscoreKeyAt(i + 11);
    }
  }

  /** The `plot_purity_multiregion` tick labels are the class labels. */
  lemma RegionLabels()
    ensures Relabel(Select(MultiRegionKeys, IsControlRegionKey), RegionLabel) == ClassLabels
  {
    RegionSeries();
    forall i | 0 <= i < |PurityKeys|
      ensures RegionLabel(Select(MultiRegionKeys, IsControlRegionKey)[i]) == ClassLabels[i]
    {
      PurityKeyOf(i);
      RegionLabelOf(i);
    }
  }

  datatype BarChart = BarChart(labels: seq<string>, values: seq<real>)

  datatype RegionChart = RegionChart(labels: seq<string>, controlRegion: seq<real>, fscores: seq<real>, signalRegion: seq<real>)

  datatype SchemeChart = SchemeChart(labels: seq<string>, fourFlavour: seq<real>, fiveFlavour: seq<real>, ratio: seq<real>)

  /** A report's faults: a non-data file that does not open, or a missing
      histogram. */
  ghost predicate ReportFault(e: Error, files: seq<RootFile>) {
    e.HistogramNotFound? ||
    exists i :: 0 <= i < |files| && e == FileNotFound(files[i].path) &&
      !files[i].opens && !Contains(files[i].path, "Data")
  }

  /** The accumulated tallies, each the total over the files. */
  lemma TableIsTotals(mode: Mode, files: seq<RootFile>, table: map<string, Tally>)
    requires TallyFrom(mode, KeysOf(mode), files, ZeroTable(KeysOf(mode))) == Ok(table)
    ensures forall k :: k in KeysOf(mode) ==> k in table && table[k] == Total(mode, k, files)
    ensures ContentsNonNegative(files) ==> forall k :: k in KeysOf(mode) ==> Valid(table[k])
  {
    forall k | k in KeysOf(mode) ensures k in table && table[k] == Total(mode, k, files) {
      AccumulatedTallies(mode, files, k);
    }
    forall k | k in KeysOf(mode) && ContentsNonNegative(files) ensures Valid(table[k]) {
      AccumulatedTallies(mode, files, k);
    }
  }

  /** A series over some of the report's keys shows, bar by bar, the totals
      of those keys. */
  lemma SeriesShowsTotals(mode: Mode, files: seq<RootFile>, table: map<string, Tally>, keys: seq<string>, raw: bool)
    requires TallyFrom(mode, KeysOf(mode), files, ZeroTable(KeysOf(mode))) == Ok(table)
    requires forall k :: k in keys ==> k in KeysOf(mode)
    ensures forall k :: k in keys ==> k in table
    ensures forall i :: 0 <= i < |keys| ==> Values(table, keys, raw)[i] == Shown(Total(mode, keys[i], files), raw)
  {
    TableIsTotals(mode, files, table);
  }

  /** A series whose keys are some heads with a common suffix shows the
      totals of those keys. */
  lemma SeriesOfHeads(mode: Mode, files: seq<RootFile>, table: map<string, Tally>, keys: seq<string>,
                      heads: seq<string>, suffix: string, raw: bool)
    requires TallyFrom(mode, KeysOf(mode), files, ZeroTable(KeysOf(mode))) == Ok(table)
    requires forall k :: k in keys ==> k in KeysOf(mode)
    requires |keys| == |heads| && forall i :: 0 <= i < |heads| ==> keys[i] == heads[i] + suffix
    ensures forall k :: k in keys ==> k in table
    ensures |Values(table, keys, raw)| == |heads|
    ensures forall i :: 0 <= i < |heads| ==> Values(table, keys, raw)[i] == Shown(Total(mode, heads[i] + suffix, files), raw)
  {
    SeriesShowsTotals(mode, files, table, keys, raw);
  }

  /** `plot_purity` (lines 208-247): one purity bar per category, each the
      share of the category's events that come from its own process. */
  method PlotPurity(files: seq<RootFile>) returns (r: Result<BarChart>)
    ensures r.Err? <==> TallyFrom(SingleRegion, PurityKeys, files, ZeroTable(PurityKeys)).Err?
    ensures r.Err? ==> ReportFault(r.error, files)
    ensures r.Ok? ==> r.value.labels == Relabel(PurityKeys, PurityLabel) == ClassLabels
    ensures r.Ok? ==> |r.value.values| == |PurityKeys|
    ensures r.Ok? ==>
      forall i :: 0 <= i < |PurityKeys| ==> r.value.values[i] == Purity(Total(SingleRegion, PurityKeys[i], files))
    ensures r.Ok? && ContentsNonNegative(files) ==>
      forall i :: 0 <= i < |r.value.values| ==> 0.0 <= r.value.values[i] <= 1.0
  {
    var t := AccumulateTallies(SingleRegion, files);
    ReportFaults(SingleRegion, files);
    if t.Err? {
      return Err(t.error);
    }
    var table := t.value;
    TableIsTotals(SingleRegion, files, table);
    var values := Values(table, PurityKeys, false);
    if ContentsNonNegative(files) {
      forall i | 0 <= i < |values| ensures 0.0 <= values[i] <= 1.0 {
        ShownIsBounded(table[PurityKeys[i]], false);
      }
    }
    PurityLabels();
    r := Ok(BarChart(Relabel(PurityKeys, PurityLabel), values));
  }

  /** `plot_purity_multiregion` (lines 298-361): three bar series over the
      categories, control-region, control-region fscore and signal-region,
      each bar a purity or, in raw mode, a numerator. */
  method PlotPurityMultiRegion(files: seq<RootFile>, raw: bool) returns (r: Result<RegionChart>)
    ensures r.Err? <==> TallyFrom(MultiRegion, MultiRegionKeys, files, ZeroTable(MultiRegionKeys)).Err?
    ensures r.Err? ==> ReportFault(r.error, files)
    ensures r.Ok? ==> r.value.labels == Relabel(Select(MultiRegionKeys, IsControlRegionKey), RegionLabel) == ClassLabels
    ensures r.Ok? ==> |r.value.controlRegion| == |r.value.fscores| == |r.value.signalRegion| == |PurityKeys|
    ensures r.Ok? ==> forall i :: 0 <= i < |PurityKeys| ==>
      r.value.controlRegion[i] == Shown(Total(MultiRegion, PurityKeys[i] + "_CR", files), raw) &&
      r.value.fscores[i] == Shown(Total(MultiRegion, SchemeHeads[i] + "_CR", files), raw) &&
      r.value.signalRegion[i] == Shown(Total(MultiRegion, PurityKeys[i] + "_SR", files), raw)
  {
    var t := AccumulateTallies(MultiRegion, files);
    ReportFaults(MultiRegion, files);
    if t.Err? {
      return Err(t.error);
    }
    var table := t.value;
    var cr := Select(MultiRegionKeys, IsControlRegionKey);
    var fs := Select(MultiRegionKeys, IsFscoreKey);
    var sr := Select(MultiRegionKeys, IsSignalRegionKey);
    RegionSeries();
    FscoreSeries();
    RegionLabels();
    SelectMembers(MultiRegionKeys, IsControlRegionKey);
    SelectMembers(MultiRegionKeys, IsFscoreKey);
    SelectMembers(MultiRegionKeys, IsSignalRegionKey);
    SeriesOfHeads(MultiRegion, files, table, cr, PurityKeys, "_CR", raw);
    SeriesOfHeads(MultiRegion, files, table, fs, SchemeHeads, "_CR", raw);
    SeriesOfHeads(MultiRegion, files, table, sr, PurityKeys, "_SR", raw);
    r := Ok(RegionChart(Relabel(cr, RegionLabel), Values(table, cr, raw), Values(table, fs, raw), Values(table, sr, raw)));
  }

  /** `compare_FSs` (lines 417-473): the 4F and 5F series over the categories,
      each bar the chosen process's purity or raw count, and their ratio. */
  method CompareSchemes(files: seq<RootFile>, process: string, raw: bool) returns (r: Result<SchemeChart>)
    ensures var mode := SchemeComparison(process);
      r.Err? <==> TallyFrom(mode, SchemeKeys, files, ZeroTable(SchemeKeys)).Err?
    ensures r.Err? ==> ReportFault(r.error, files)
    ensures r.Ok? ==> r.value.labels == Relabel(Select(SchemeKeys, IsFourFlavourKey), SchemeLabel) == ClassLabels
    ensures r.Ok? ==> |r.value.fourFlavour| == |r.value.fiveFlavour| == |SchemeHeads|
    ensures r.Ok? ==> forall i :: 0 <= i < |SchemeHeads| ==>
      r.value.fourFlavour[i] == Shown(Total(SchemeComparison(process), SchemeHeads[i] + "_4F", files), raw) &&
      r.value.fiveFlavour[i] == Shown(Total(SchemeComparison(process), SchemeHeads[i] + "_5F", files), raw)
    ensures r.Ok? ==> r.value.ratio == RatioOfSchemes(r.value.fourFlavour, r.value.fiveFlavour)
  {
    var mode := SchemeComparison(process);
    var t := AccumulateTallies(mode, files);
    ReportFaults(mode, files);
    if t.Err? {
      return Err(t.error);
    }
    var table := t.value;
    var k4 := Select(SchemeKeys, IsFourFlavourKey);
    var k5 := Select(SchemeKeys, IsFiveFlavourKey);
    SchemeSeries();
    SchemeLabels();
    SelectMembers(SchemeKeys, IsFourFlavourKey);
    SelectMembers(SchemeKeys, IsFiveFlavourKey);
    SeriesOfHeads(mode, files, table, k4, SchemeHeads, "_4F", raw);
    SeriesOfHeads(mode, files, table, k5, SchemeHeads, "_5F", raw);
    var v4 := Values(table, k4, raw);
    var v5 := Values(table, k5, raw);
    r := Ok(SchemeChart(Relabel(k4, SchemeLabel), v4, v5, RatioOfSchemes(v4, v5)));
  }
}
