/** The three purity reports of plotUnstacked.py — `plot_purity`,
    `plot_purity_multiregion` and `compare_FSs` — share one loop: for each
    input file and each category key, decide whether the pair counts, look the
    histogram up, and add its integral to the key's `[num, den]` pair. They
    differ only in the key table and in the rule for a (file, key) pair,
    which `Mode` selects. */
module TallyReports {
  import opened Strings
  import opened Results
  import opened Histograms
  import opened Tallies

  datatype Mode =
    | SingleRegion                       // plot_purity
    | MultiRegion                        // plot_purity_multiregion
    | SchemeComparison(process: string)  // compare_FSs, with --process

  /** The keys of `process` in `plot_purity` (lines 201-206). */
  const PurityKeys: seq<string> :=
    ["h_score_tt_Wcb", "h_score_ttLF", "h_score_ttbb", "h_score_ttbj", "h_score_ttcc", "h_score_ttcj"]

  /** The keys of `process` in `plot_purity_multiregion` (lines 280-296). */
  const MultiRegionKeys: seq<string> :=
    ["h_score_tt_Wcb_CR", "h_score_tt_Wcb_SR", "h_score_ttLF_CR", "h_score_ttLF_SR",
     "h_score_ttbb_CR", "h_score_ttbb_SR", "h_score_ttbj_CR", "h_score_ttbj_SR",
     "h_score_ttcc_CR", "h_score_ttcc_SR", "h_score_ttcj_CR", "h_score_ttcj_SR",
     "h_fscore_ttLF_CR", "h_fscore_ttbb_CR", "h_fscore_ttbj_CR", "h_fscore_ttcc_CR",
     "h_fscore_ttcj_CR"]

  /** The keys of `category` in `compare_FSs` (lines 404-415). */
  const SchemeKeys: seq<string> :=
    ["h_score_tt_Wcb_4F", "h_score_tt_Wcb_5F", "h_fscore_ttLF_4F", "h_fscore_ttLF_5F",
     "h_fscore_ttbb_4F", "h_fscore_ttbb_5F", "h_fscore_ttbj_4F", "h_fscore_ttbj_5F",
     "h_fscore_ttcc_4F", "h_fscore_ttcc_5F", "h_fscore_ttcj_4F", "h_fscore_ttcj_5F"]

  function KeysOf(mode: Mode): seq<string> {
    match mode
    case SingleRegion => PurityKeys
    case MultiRegion => MultiRegionKeys
    case SchemeComparison(_) => SchemeKeys
  }

  ghost predicate NoDuplicates(keys: seq<string>) {
    forall i, j :: 0 <= i < j < |keys| ==> keys[i] != keys[j]
  }

  /** Every key table lists each key once, and every key has a `_`, so
      `split('_')[-2]` never raises on it (SeparatorMakesTwoFields). */
  lemma KeyTablesAreWellFormed(mode: Mode, key: string)
    ensures NoDuplicates(KeysOf(mode))
    ensures key in KeysOf(mode) ==> '_' in key
  {
    match mode
    case SingleRegion => PurityKeysAreWellFormed(key);
    case MultiRegion => MultiRegionKeysAreWellFormed(key);
    case SchemeComparison(_) => SchemeKeysAreWellFormed(key);
  }

  lemma PurityKeysAreWellFormed(key: string)
    ensures NoDuplicates(PurityKeys)
    ensures key in PurityKeys ==> '_' in key
  {
  }

  lemma MultiRegionKeysAreWellFormed(key: string)
    ensures NoDuplicates(MultiRegionKeys)
    ensures key in MultiRegionKeys ==> '_' in key
  {
  }

  lemma SchemeKeysAreWellFormed(key: string)
    ensures NoDuplicates(SchemeKeys)
    ensures key in SchemeKeys ==> '_' in key
  {
  }

  lemma SeparatorMakesTwoFields(s: string, c: char)
    requires c in s
    ensures |Split(s, c)| >= 2
  {
    var i :| 0 <= i < |s| && s[i] == c;
    assert s == s[..i] + [c] + s[i + 1..];
    SplitAround(s[..i], s[i + 1..], c);
  }

  /** The second-to-last `_` field of a key, `hist_name.split('_')[-2]`. */
  function ProcessField(key: string): Result<string> {
    var fields := Split(key, '_');
    if |fields| < 2 then Err(IndexError) else Ok(fields[|fields| - 2])
  }

  /** The last `_` field of a key, `hist_name.split('_')[-1]`: the process in
      `plot_purity`, the region or flavour scheme elsewhere. */
  function Region(key: string): string {
    LastField(key, '_')
  }

  /** A process field naming Wcb stands for the `ttWcb` files. */
  function ProcessToken(field: string): string {
    if Contains(field, "Wcb") then "ttWcb" else field
  }

  /** The multi-region filter (lines 314-320). */
  predicate MultiRegionCounts(key: string, process: string, region: string, path: string) {
    && Contains(path, region)
    && !(Contains(key, "fscore") && !Contains(path, "fscore"))
    && !(!Contains(process, "Wcb") && Contains(path, "fscore") && !Contains(key, "fscore"))
  }

  /** What one (file, key) pair does: nothing, or one integral counted, with
      whether the file is of the key's own process. */
  datatype Contribution = Skipped | Counted(integral: real, matches: bool)

  /** The body of the inner loop for one (file, key) pair. */
  function Contribute(mode: Mode, key: string, f: RootFile): Result<Contribution> {
    match mode
    case SingleRegion =>
      var token := ProcessToken(Region(key));
      (match Get(f, key)
       case Err(e) => Err(e)
       case Ok(h) => Ok(Counted(Integral(h), Contains(f.path, token))))
    case MultiRegion =>
      (match ProcessField(key)
       case Err(e) => Err(e)
       case Ok(process) =>
         var region := Region(key);
         if !MultiRegionCounts(key, process, region, f.path) then Ok(Skipped)
         else
           (match Get(f, ReplaceAll(key, "_" + region, ""))
            case Err(_) => Err(HistogramNotFound(key, f.path))
            case Ok(h) => Ok(Counted(Integral(h), Contains(f.path, ProcessToken(process))))))
    case SchemeComparison(process) =>
      (match ProcessField(key)
       case Err(e) => Err(e)
       case Ok(_) =>
         var region := Region(key);
         if !Contains(f.path, region) then Ok(Skipped)
         else
           (match Get(f, ReplaceAll(key, "_" + region, ""))
            case Err(e) => Err(e)
            case Ok(h) => Ok(Counted(Integral(h), Contains(f.path, process)))))
  }

  function Apply(t: Tally, c: Contribution): Tally {
    match c
    case Skipped => t
    case Counted(x, m) => Record(t, x, m)
  }

  ghost predicate Tracks(table: map<string, Tally>, keys: seq<string>) {
    forall k :: k in keys ==> k in table
  }

  /** The inner loop over the keys for one file, from a given table. */
  function StepKeys(mode: Mode, keys: seq<string>, f: RootFile, table: map<string, Tally>): (r: Result<map<string, Tally>>)
    requires Tracks(table, keys)
    ensures r.Ok? ==> r.value.Keys == table.Keys
    decreases |keys|
  {
    if keys == [] then Ok(table)
    else
      match Contribute(mode, keys[0], f)
      case Err(e) => Err(e)
      case Ok(c) => StepKeys(mode, keys[1..], f, table[keys[0] := Apply(table[keys[0]], c)])
  }

  /** One iteration of the outer loop: data files are skipped before they are
      opened, a file that does not open is fatal. */
  function StepFile(mode: Mode, keys: seq<string>, f: RootFile, table: map<string, Tally>): (r: Result<map<string, Tally>>)
    requires Tracks(table, keys)
    ensures r.Ok? ==> r.value.Keys == table.Keys
  {
    if Contains(f.path, "Data") then Ok(table)
    else if !f.opens then Err(FileNotFound(f.path))
    else StepKeys(mode, keys, f, table)
  }

  /** The whole loop over the files, from a given table. */
  function TallyFrom(mode: Mode, keys: seq<string>, files: seq<RootFile>, table: map<string, Tally>): (r: Result<map<string, Tally>>)
    requires Tracks(table, keys)
    ensures r.Ok? ==> r.value.Keys == table.Keys
    decreases |files|
  {
    if files == [] then Ok(table)
    else
      match StepFile(mode, keys, files[0], table)
      case Err(e) => Err(e)
      case Ok(next) => TallyFrom(mode, keys, files[1..], next)
  }

  /** The dictionary literal: every key starts at `[0., 0.]`. */
  function ZeroTable(keys: seq<string>): (table: map<string, Tally>)
    ensures Tracks(table, keys)
  {
    map k | k in keys :: Empty
  }

  /** The loops of `plot_purity` (lines 208-235), `plot_purity_multiregion`
      (lines 298-337) and `compare_FSs` (lines 417-449), reassigning the map
      of tallies key by key. */
  method AccumulateTallies(mode: Mode, files: seq<RootFile>) returns (r: Result<map<string, Tally>>)
    ensures r == TallyFrom(mode, KeysOf(mode), files, ZeroTable(KeysOf(mode)))
  {
    r := AccumulateOver(mode, KeysOf(mode), files);
  }

  /** The loop over the files, for any table of keys. */
  method AccumulateOver(mode: Mode, keys: seq<string>, files: seq<RootFile>) returns (r: Result<map<string, Tally>>)
    ensures r == TallyFrom(mode, keys, files, ZeroTable(keys))
  {
    var table := ZeroTable(keys);
    var i := 0;
    while i < |files|
      invariant 0 <= i <= |files|
      invariant Tracks(table, keys)
      invariant TallyFrom(mode, keys, files, ZeroTable(keys)) == TallyFrom(mode, keys, files[i..], table)
    {
      var f := files[i];
      assert files[i..][0] == f && files[i..][1..] == files[i + 1..];
      if !Contains(f.path, "Data") {
        if !f.opens {
          return Err(FileNotFound(f.path));
        }
        var next := CountFile(mode, keys, f, table);
        if next.Err? {
          return Err(next.error);
        }
        table := next.value;
      }
      i := i + 1;
    }
    assert files[|files|..] == [];
    r := Ok(table);
  }

  /** The loop over the keys for one file that opened. */
  method CountFile(mode: Mode, keys: seq<string>, f: RootFile, table0: map<string, Tally>) returns (r: Result<map<string, Tally>>)
    requires Tracks(table0, keys)
    ensures r == StepKeys(mode, keys, f, table0)
  {
    var table := table0;
    var j := 0;
    while j < |keys|
      invariant 0 <= j <= |keys|
      invariant Tracks(table, keys)
      invariant StepKeys(mode, keys, f, table0) == StepKeys(mode, keys[j..], f, table)
    {
      var key := keys[j];
      assert keys[j..][0] == key && keys[j..][1..] == keys[j + 1..];
      var c := Contribute(mode, key, f);
      if c.Err? {
        return Err(c.error);
      }
      table := table[key := Apply(table[key], c.value)];
      j := j + 1;
    }
    assert keys[|keys|..] == [];
    r := Ok(table);
  }

  // ---------------------------------------------------------------------
  // What the accumulated tallies are

  function Plus(a: Tally, b: Tally): Tally {
    Tally(a.num + b.num, a.den + b.den)
  }

  function Delta(c: Contribution): Tally {
    match c
    case Skipped => Empty
    case Counted(x, m) => Record(Empty, x, m)
  }

  /** What one file adds to one key's tally: nothing for a data file or for a
      skipped pair, otherwise the integral to the denominator and, for a file
      of the key's process, to the numerator. */
  ghost function Credit(mode: Mode, key: string, f: RootFile): Tally {
    if Contains(f.path, "Data") then Empty
    else
      match Contribute(mode, key, f)
      case Ok(c) => Delta(c)
      case Err(_) => Empty
  }

  /** The sum of the credits of all files for one key. */
  ghost function Total(mode: Mode, key: string, files: seq<RootFile>): Tally {
    if files == [] then Empty else Plus(Credit(mode, key, files[0]), Total(mode, key, files[1..]))
  }

  /** The keys loop changes each key's tally by that key's contribution and
      leaves every other entry of the table alone. */
  lemma {:induction false} StepKeysEffect(mode: Mode, keys: seq<string>, f: RootFile, table: map<string, Tally>, key: string)
    requires Tracks(table, keys) && NoDuplicates(keys) && key in table
    requires StepKeys(mode, keys, f, table).Ok?
    ensures key in keys ==> Contribute(mode, key, f).Ok?
    ensures key in keys ==>
      StepKeys(mode, keys, f, table).value[key] == Plus(table[key], Delta(Contribute(mode, key, f).value))
    ensures key !in keys ==> StepKeys(mode, keys, f, table).value[key] == table[key]
    decreases |keys|
  {
    if keys != [] {
      var c := Contribute(mode, keys[0], f).value;
      var next := table[keys[0] := Apply(table[keys[0]], c)];
      assert NoDuplicates(keys[1..]) by {
        forall i, j | 0 <= i < j < |keys[1..]| ensures keys[1..][i] != keys[1..][j] {
          assert keys[1..][i] == keys[i + 1] && keys[1..][j] == keys[j + 1];
        }
      }
      StepKeysEffect(mode, keys[1..], f, next, key);
      if key == keys[0] {
        assert key !in keys[1..] by {
          forall j | 0 <= j < |keys[1..]| ensures keys[1..][j] != key {
            assert keys[1..][j] == keys[j + 1];
          }
        }
      } else if key in keys {
        assert key in keys[1..];
      }
    }
  }

  /** One file changes each key's tally by what it credits to that key. */
  lemma StepFileEffect(mode: Mode, keys: seq<string>, f: RootFile, table: map<string, Tally>, key: string)
    requires Tracks(table, keys) && NoDuplicates(keys) && key in keys
    requires StepFile(mode, keys, f, table).Ok?
    ensures StepFile(mode, keys, f, table).value[key] == Plus(table[key], Credit(mode, key, f))
  {
    if !Contains(f.path, "Data") {
      StepKeysEffect(mode, keys, f, table, key);
    }
  }

  /** The accumulated tally of every key is its starting value plus the sum,
      over all files, of what the file contributes to that key. */
  lemma {:induction false} TallyIsTotal(mode: Mode, keys: seq<string>, files: seq<RootFile>, table: map<string, Tally>, key: string)
    requires Tracks(table, keys) && NoDuplicates(keys) && key in keys
    requires TallyFrom(mode, keys, files, table).Ok?
    ensures TallyFrom(mode, keys, files, table).value[key] == Plus(table[key], Total(mode, key, files))
    decreases |files|
  {
    if files != [] {
      var f := files[0];
      var step := StepFile(mode, keys, f, table);
      var next := step.value;
      assert next.Keys == table.Keys;
      assert TallyFrom(mode, keys, files, table) == TallyFrom(mode, keys, files[1..], next);
      StepFileEffect(mode, keys, f, table, key);
      TallyIsTotal(mode, keys, files[1..], next, key);
      assert Total(mode, key, files) == Plus(Credit(mode, key, f), Total(mode, key, files[1..]));
    }
  }

  /** Each histogram of each file has non-negative contents. */
  ghost predicate ContentsNonNegative(files: seq<RootFile>) {
    forall i, name :: 0 <= i < |files| && name in files[i].contents ==> NonNegative(files[i].contents[name])
  }

  /** With non-negative histograms every file's credit, and so every total,
      keeps 0 <= numerator <= denominator. */
  lemma {:induction false} TotalIsValid(mode: Mode, key: string, files: seq<RootFile>)
    requires ContentsNonNegative(files)
    ensures Valid(Total(mode, key, files))
    decreases |files|
  {
    if files != [] {
      var f := files[0];
      assert ContentsNonNegative(files[1..]) by {
        forall i, name | 0 <= i < |files[1..]| && name in files[1..][i].contents
          ensures NonNegative(files[1..][i].contents[name])
        {
          assert files[1..][i] == files[i + 1];
        }
      }
      TotalIsValid(mode, key, files[1..]);
      CreditIsValid(mode, key, f);
    }
  }

  lemma CreditIsValid(mode: Mode, key: string, f: RootFile)
    requires forall name :: name in f.contents ==> NonNegative(f.contents[name])
    ensures Valid(Credit(mode, key, f))
  {
    if !Contains(f.path, "Data") {
      var c := Contribute(mode, key, f);
      if c.Ok? && c.value.Counted? {
        var name :| name in f.contents && Integral(f.contents[name]) == c.value.integral;
        IntegralNonNegative(f.contents[name]);
      }
    }
  }

  /** The report's tallies, read off the loop: each key's tally is the total
      of all files' contributions, and with non-negative histograms it keeps
      0 <= numerator <= denominator. */
  lemma AccumulatedTallies(mode: Mode, files: seq<RootFile>, key: string)
    requires key in KeysOf(mode)
    requires TallyFrom(mode, KeysOf(mode), files, ZeroTable(KeysOf(mode))).Ok?
    ensures TallyFrom(mode, KeysOf(mode), files, ZeroTable(KeysOf(mode))).value[key] == Total(mode, key, files)
    ensures ContentsNonNegative(files) ==>
      Valid(TallyFrom(mode, KeysOf(mode), files, ZeroTable(KeysOf(mode))).value[key])
  {
    KeyTablesAreWellFormed(mode, key);
    TallyIsTotal(mode, KeysOf(mode), files, ZeroTable(KeysOf(mode)), key);
    if ContentsNonNegative(files) {
      TotalIsValid(mode, key, files);
    }
  }

  /** Files whose path contains "Data" are skipped: dropping them from the
      input changes nothing, neither the tallies nor the faults. */
  lemma {:induction false} DataFilesAreIgnored(mode: Mode, keys: seq<string>, files: seq<RootFile>, table: map<string, Tally>)
    requires Tracks(table, keys)
    ensures TallyFrom(mode, keys, files, table) == TallyFrom(mode, keys, WithoutData(files), table)
    decreases |files|
  {
    if files != [] {
      var f := files[0];
      if Contains(f.path, "Data") {
        DataFilesAreIgnored(mode, keys, files[1..], table);
      } else {
        assert WithoutData(files) == [f] + WithoutData(files[1..]);
        assert WithoutData(files)[1..] == WithoutData(files[1..]);
        var s := StepFile(mode, keys, f, table);
        if s.Ok? {
          DataFilesAreIgnored(mode, keys, files[1..], s.value);
        }
      }
    }
  }

  function WithoutData(files: seq<RootFile>): seq<RootFile> {
    if files == [] then []
    else if Contains(files[0].path, "Data") then WithoutData(files[1..])
    else [files[0]] + WithoutData(files[1..])
  }

  // ---------------------------------------------------------------------
  // The counting rules and the faults

  /** In multi-region mode a (file, key) pair is counted only when the
      region token occurs in the path, an `fscore` key meets an `fscore`
      file, and a `score` key meets an `fscore` file only for Wcb; when all
      three hold and the base histogram is there, it is counted, and it goes
      to the numerator exactly when the process token occurs in the path. */
  lemma MultiRegionRules(key: string, f: RootFile)
    requires '_' in key
    ensures ProcessField(key).Ok?
    ensures var c := Contribute(MultiRegion, key, f);
      c.Ok? && c.value.Counted? ==>
        && Contains(f.path, Region(key))
        && (Contains(key, "fscore") ==> Contains(f.path, "fscore"))
        && (Contains(f.path, "fscore") && !Contains(key, "fscore") ==> Contains(ProcessField(key).value, "Wcb"))
    ensures var c := Contribute(MultiRegion, key, f);
      var base := ReplaceAll(key, "_" + Region(key), "");
      MultiRegionCounts(key, ProcessField(key).value, Region(key), f.path) && base in f.contents ==>
        c == Ok(Counted(Integral(f.contents[base]), Contains(f.path, ProcessToken(ProcessField(key).value))))
    ensures var c := Contribute(MultiRegion, key, f);
      !MultiRegionCounts(key, ProcessField(key).value, Region(key), f.path) ==> c == Ok(Skipped)
  {
    SeparatorMakesTwoFields(key, '_');
  }

  /** In the flavour-scheme comparison a pair is counted exactly when the
      scheme token occurs in the path, and goes to the numerator exactly when
      the chosen process occurs in the path. */
  lemma SchemeRules(process: string, key: string, f: RootFile)
    requires '_' in key
    ensures var c := Contribute(SchemeComparison(process), key, f);
      !Contains(f.path, Region(key)) <==> c == Ok(Skipped)
    ensures var c := Contribute(SchemeComparison(process), key, f);
      var base := ReplaceAll(key, "_" + Region(key), "");
      Contains(f.path, Region(key)) && base in f.contents ==>
        c == Ok(Counted(Integral(f.contents[base]), Contains(f.path, process)))
  {
    SeparatorMakesTwoFields(key, '_');
  }

  /** For a key with a `_` the only fault of a pair is a missing histogram:
      the key parser never raises. */
  lemma ContributeFaults(mode: Mode, key: string, f: RootFile)
    requires '_' in key
    ensures Contribute(mode, key, f).Err? ==> Contribute(mode, key, f).error.HistogramNotFound?
  {
    SeparatorMakesTwoFields(key, '_');
  }

  lemma {:induction false} StepKeysFaults(mode: Mode, keys: seq<string>, f: RootFile, table: map<string, Tally>)
    requires Tracks(table, keys)
    requires forall k :: k in keys ==> '_' in k
    ensures StepKeys(mode, keys, f, table).Err? ==> StepKeys(mode, keys, f, table).error.HistogramNotFound?
    decreases |keys|
  {
    if keys != [] {
      ContributeFaults(mode, keys[0], f);
      var c := Contribute(mode, keys[0], f);
      if c.Ok? {
        StepKeysFaults(mode, keys[1..], f, table[keys[0] := Apply(table[keys[0]], c.value)]);
      }
    }
  }

  /** A report aborts only on a non-data file that does not open or on a
      histogram missing from a file. */
  lemma {:induction false} TallyFaults(mode: Mode, keys: seq<string>, files: seq<RootFile>, table: map<string, Tally>)
    requires Tracks(table, keys)
    requires forall k :: k in keys ==> '_' in k
    ensures var r := TallyFrom(mode, keys, files, table);
      r.Err? ==> (r.error.HistogramNotFound? ||
        exists i :: 0 <= i < |files| && r.error == FileNotFound(files[i].path) &&
          !files[i].opens && !Contains(files[i].path, "Data"))
    decreases |files|
  {
    if files != [] {
      var f := files[0];
      if !Contains(f.path, "Data") && f.opens {
        StepKeysFaults(mode, keys, f, table);
      }
      var s := StepFile(mode, keys, f, table);
      if s.Ok? {
        TallyFaults(mode, keys, files[1..], s.value);
        var r := TallyFrom(mode, keys, files[1..], s.value);
        if r.Err? && !r.error.HistogramNotFound? {
          var i :| 0 <= i < |files[1..]| && r.error == FileNotFound(files[1..][i].path) &&
            !files[1..][i].opens && !Contains(files[1..][i].path, "Data");
          assert files[1..][i] == files[i + 1];
        }
      } else if !s.error.HistogramNotFound? {
        assert s.error == FileNotFound(files[0].path) && !f.opens;
      }
    }
  }

  /** The faults of the three reports. */
  lemma ReportFaults(mode: Mode, files: seq<RootFile>)
    ensures var r := TallyFrom(mode, KeysOf(mode), files, ZeroTable(KeysOf(mode)));
      r.Err? ==> (r.error.HistogramNotFound? ||
        exists i :: 0 <= i < |files| && r.error == FileNotFound(files[i].path) &&
          !files[i].opens && !Contains(files[i].path, "Data"))
  {
    forall k | k in KeysOf(mode) ensures '_' in k {
      KeyTablesAreWellFormed(mode, k);
    }
    TallyFaults(mode, KeysOf(mode), files, ZeroTable(KeysOf(mode)));
  }

  /** A file whose own-process events are counted for a key. */
  ghost predicate CountsOwnEvents(mode: Mode, key: string, f: RootFile) {
    !Contains(f.path, "Data") &&
    Contribute(mode, key, f).Ok? && Contribute(mode, key, f).value.Counted? && Contribute(mode, key, f).value.matches
  }

  lemma CreditWithoutOwnEvents(mode: Mode, key: string, f: RootFile)
    requires !CountsOwnEvents(mode, key, f)
    ensures Credit(mode, key, f).num == 0.0
  {
  }

  /** A key no file of whose own process is ever counted keeps a zero
      numerator, and so a zero purity. */
  lemma {:induction false} NoOwnEventsNoNumerator(mode: Mode, key: string, files: seq<RootFile>)
    requires forall i :: 0 <= i < |files| ==> !CountsOwnEvents(mode, key, files[i])
    ensures Total(mode, key, files).num == 0.0
    ensures Purity(Total(mode, key, files)) == 0.0
    decreases |files|
  {
    if files != [] {
      CreditWithoutOwnEvents(mode, key, files[0]);
      assert forall i :: 0 <= i < |files[1..]| ==> files[1..][i] == files[i + 1];
      NoOwnEventsNoNumerator(mode, key, files[1..]);
    }
  }
}
