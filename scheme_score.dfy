/** `compare_4F5F_vs_score` (plotUnstacked.py, lines 535-598): the tt_Wcb
    score histograms of the tt+bb and tt+bj samples, summed separately for
    the four-flavour (4F) and five-flavour (5F) schemes, and their ratio. */
module SchemeScore {
  import opened Strings
  import opened Results
  import opened Histograms
  import TallyReports

  /** Both sums are `ROOT.TH1D(name, "", 20, 0, 1)`. */
  const ScoreBins: nat := 20

  /** The histogram every sample file is asked for. */
  const BaseName := "h_score_tt_Wcb"

  /** The two sums, keyed as in the script, in its dictionary order. */
  const FourFlavourKey := "h_score_tt_Wcb_4F"
  const FiveFlavourKey := "h_score_tt_Wcb_5F"
  const ScoreKeys := [FourFlavourKey, FiveFlavourKey]

  datatype Sums = Sums(fourFlavour: Hist, fiveFlavour: Hist)

  const Start := Sums(Zeros(ScoreBins), Zeros(ScoreBins))

  /** Only files whose path names a tt+bb or tt+bj sample are read. */
  predicate HasBottomPair(path: string) {
    Contains(path, "bb") || Contains(path, "bj")
  }

  /** Where a histogram goes: the 4F sum when the path contains "4F", the 5F
      sum otherwise, whichever key it was read for. */
  function Route(s: Sums, h: Hist, path: string, m: Mismatch): Sums {
    if Contains(path, "4F") then s.(fourFlavour := Add(s.fourFlavour, h, m))
    else s.(fiveFlavour := Add(s.fiveFlavour, h, m))
  }

  /** One key of the inner loop: skipped unless its scheme is in the path,
      otherwise the histogram named by the key without `_<scheme>` is read
      and routed; a missing one is fatal, under the name that was asked for. */
  function AddHistogram(s: Sums, key: string, f: RootFile, m: Mismatch): Result<Sums> {
    var region := TallyReports.Region(key);
    if !Contains(f.path, region) then Ok(s)
    else
      var name := ReplaceAll(key, "_" + region, "");
      match Get(f, name)
      case Err(e) => Err(e)
      case Ok(h) => Ok(Route(s, h, f.path, m))
  }

  function AddHistograms(s: Sums, keys: seq<string>, f: RootFile, m: Mismatch): Result<Sums>
    decreases |keys|
  {
    if keys == [] then Ok(s)
    else
      match AddHistogram(s, keys[0], f, m)
      case Err(e) => Err(e)
      case Ok(next) => AddHistograms(next, keys[1..], f, m)
  }

  /** One iteration of the outer loop: other samples are skipped before they
      are opened, a file that does not open is fatal. */
  function VisitFile(s: Sums, f: RootFile, m: Mismatch): Result<Sums> {
    if !HasBottomPair(f.path) then Ok(s)
    else if !f.opens then Err(FileNotFound(f.path))
    else AddHistograms(s, ScoreKeys, f, m)
  }

  function VisitFiles(s: Sums, files: seq<RootFile>, m: Mismatch): Result<Sums>
    decreases |files|
  {
    if files == [] then Ok(s)
    else
      match VisitFile(s, files[0], m)
      case Err(e) => Err(e)
      case Ok(next) => VisitFiles(next, files[1..], m)
  }

  /** What the plot shows: the two sums and `ratio = 4F.Clone(); ratio.Divide(5F)`. */
  datatype Comparison = Comparison(fourFlavour: Hist, fiveFlavour: Hist, ratio: Hist)

  function CompareFlavourSchemes(files: seq<RootFile>, m: Mismatch): Result<Comparison> {
    match VisitFiles(Start, files, m)
    case Err(e) => Err(e)
    case Ok(s) => Ok(Comparison(s.fourFlavour, s.fiveFlavour, Divide(s.fourFlavour, s.fiveFlavour, m)))
  }

  /** The script's loops over the files and, within a file, over the two
      keys. */
  method CompareFlavourSchemesVsScore(files: seq<RootFile>, m: Mismatch) returns (r: Result<Comparison>)
    ensures r == CompareFlavourSchemes(files, m)
  {
    var keys := ScoreKeys;
    var sums := Start;
    var i := 0;
    while i < |files|
      invariant 0 <= i <= |files|
      invariant VisitFiles(Start, files, m) == VisitFiles(sums, files[i..], m)
    {
      var f := files[i];
      assert files[i..][0] == f && files[i..][1..] == files[i + 1..];
      if HasBottomPair(f.path) {
        if !f.opens {
          return Err(FileNotFound(f.path));
        }
        ghost var before := sums;
        var j := 0;
        while j < |keys|
          invariant 0 <= j <= |keys|
          invariant AddHistograms(before, keys, f, m) == AddHistograms(sums, keys[j..], f, m)
        {
          var key := keys[j];
          assert keys[j..][0] == key && keys[j..][1..] == keys[j + 1..];
          var region := TallyReports.Region(key);
          if Contains(f.path, region) {
            var h := Get(f, ReplaceAll(key, "_" + region, ""));
            if h.Err? {
              return Err(h.error);
            }
            if Contains(f.path, "4F") {
              sums := sums.(fourFlavour := Add(sums.fourFlavour, h.value, m));
            } else {
              sums := sums.(fiveFlavour := Add(sums.fiveFlavour, h.value, m));
            }
          }
          j := j + 1;
        }
        assert keys[|keys|..] == [];
      }
      i := i + 1;
    }
    assert files[|files|..] == [];
    r := Ok(Comparison(sums.fourFlavour, sums.fiveFlavour, Divide(sums.fourFlavour, sums.fiveFlavour, m)));
  }

  // ---------------------------------------------------------------------
  // What one file contributes

  /** Both keys ask for the same histogram: the last field of the key is its
      scheme, and deleting `_<scheme>` leaves the base name. */
  lemma ScoreKeyParts(key: string, region: string)
    requires region == "4F" || region == "5F"
    requires key == BaseName + "_" + region
    ensures TallyReports.Region(key) == region
    ensures ReplaceAll(key, "_" + region, "") == BaseName
  {
    LastFieldAfter(BaseName, region, '_');
    LastFieldOfPlain(region, '_');
    assert ("_" + region)[1] == region[0];
    assert key == BaseName + ("_" + region);
    ReplaceSuffix(BaseName, "_" + region, "");
    assert BaseName + "" == BaseName;
  }

  /** One key, in the script's terms. */
  lemma AddHistogramEffect(s: Sums, key: string, region: string, f: RootFile, m: Mismatch)
    requires region == "4F" || region == "5F"
    requires key == BaseName + "_" + region
    ensures AddHistogram(s, key, f, m) ==
      if !Contains(f.path, region) then Ok(s)
      else if BaseName !in f.contents then Err(HistogramNotFound(BaseName, f.path))
      else Ok(Route(s, f.contents[BaseName], f.path, m))
  {
    ScoreKeyParts(key, region);
  }

  /** What a file that names a scheme leaves in the sums: its score histogram
      added to the 4F sum whenever the path contains "4F" (twice when the path
      also contains "5F", once for each key), and to the 5F sum only when the
      path contains "5F" but not "4F". Any other file leaves them as they
      were. */
  function Routed(s: Sums, f: RootFile, m: Mismatch): Sums {
    var four := Contains(f.path, "4F");
    var five := Contains(f.path, "5F");
    if !HasBottomPair(f.path) || BaseName !in f.contents || (!four && !five) then s
    else
      var h := f.contents[BaseName];
      if four && five then Sums(Add(Add(s.fourFlavour, h, m), h, m), s.fiveFlavour)
      else if four then Sums(Add(s.fourFlavour, h, m), s.fiveFlavour)
      else Sums(s.fourFlavour, Add(s.fiveFlavour, h, m))
  }

  /** What a file does to the sums. A file of another sample adds nothing
      and is not opened; a tt+bb or tt+bj file that does not open is fatal,
      as is one that names a scheme and lacks the score histogram; any other
      is routed. */
  lemma VisitFileEffect(s: Sums, f: RootFile, m: Mismatch)
    ensures !HasBottomPair(f.path) ==> VisitFile(s, f, m) == Ok(s)
    ensures HasBottomPair(f.path) && !f.opens ==> VisitFile(s, f, m) == Err(FileNotFound(f.path))
    ensures HasBottomPair(f.path) && f.opens ==>
      VisitFile(s, f, m) ==
        if (Contains(f.path, "4F") || Contains(f.path, "5F")) && BaseName !in f.contents
        then Err(HistogramNotFound(BaseName, f.path))
        else Ok(Routed(s, f, m))
  {
    if HasBottomPair(f.path) && f.opens {
      TwoKeysEffect(s, f, ScoreKeys, FourFlavourKey, FiveFlavourKey, m);
    }
  }

  lemma TwoKeysEffect(s: Sums, f: RootFile, keys: seq<string>, k4: string, k5: string, m: Mismatch)
    requires k4 == BaseName + "_" + "4F" && k5 == BaseName + "_" + "5F" && keys == [k4, k5]
    ensures var four := Contains(f.path, "4F");
      var five := Contains(f.path, "5F");
      AddHistograms(s, keys, f, m) ==
        if !four && !five then Ok(s)
        else if BaseName !in f.contents then Err(HistogramNotFound(BaseName, f.path))
        else
          var h := f.contents[BaseName];
          if four && five then Ok(Sums(Add(Add(s.fourFlavour, h, m), h, m), s.fiveFlavour))
          else if four then Ok(Sums(Add(s.fourFlavour, h, m), s.fiveFlavour))
          else Ok(Sums(s.fourFlavour, Add(s.fiveFlavour, h, m)))
  {
    AddHistogramEffect(s, k4, "4F", f, m);
    assert keys[1..] == [k5] && keys[0] == k4;
    var a := AddHistogram(s, k4, f, m);
    if a.Ok? {
      AddHistogramEffect(a.value, k5, "5F", f, m);
      assert [k5][1..] == [];
      assert AddHistograms(s, keys, f, m) == AddHistograms(a.value, [k5], f, m);
      var b := AddHistogram(a.value, k5, f, m);
      if b.Ok? {
        assert AddHistograms(a.value, [k5], f, m) == AddHistograms(b.value, [], f, m);
      }
    }
  }

  /** The events a file adds to each sum. */
  ghost function FourFlavourShare(f: RootFile): real {
    if HasBottomPair(f.path) && Contains(f.path, "4F") && BaseName in f.contents
    then (if Contains(f.path, "5F") then 2.0 else 1.0) * Integral(f.contents[BaseName])
    else 0.0
  }

  ghost function FiveFlavourShare(f: RootFile): real {
    if HasBottomPair(f.path) && !Contains(f.path, "4F") && Contains(f.path, "5F") && BaseName in f.contents
    then Integral(f.contents[BaseName])
    else 0.0
  }

  ghost function FourFlavourEvents(files: seq<RootFile>): real
    decreases |files|
  {
    if files == [] then 0.0 else FourFlavourShare(files[0]) + FourFlavourEvents(files[1..])
  }

  ghost function FiveFlavourEvents(files: seq<RootFile>): real
    decreases |files|
  {
    if files == [] then 0.0 else FiveFlavourShare(files[0]) + FiveFlavourEvents(files[1..])
  }

  /** Bin `b` of what a file adds to each sum. */
  ghost function FourFlavourShareBin(f: RootFile, b: nat): real {
    if HasBottomPair(f.path) && Contains(f.path, "4F") && BaseName in f.contents && b < |f.contents[BaseName]|
    then (if Contains(f.path, "5F") then 2.0 else 1.0) * f.contents[BaseName][b]
    else 0.0
  }

  ghost function FiveFlavourShareBin(f: RootFile, b: nat): real {
    if HasBottomPair(f.path) && !Contains(f.path, "4F") && Contains(f.path, "5F") && BaseName in f.contents &&
       b < |f.contents[BaseName]|
    then f.contents[BaseName][b]
    else 0.0
  }

  ghost function FourFlavourBin(files: seq<RootFile>, b: nat): real
    decreases |files|
  {
    if files == [] then 0.0 else FourFlavourShareBin(files[0], b) + FourFlavourBin(files[1..], b)
  }

  ghost function FiveFlavourBin(files: seq<RootFile>, b: nat): real
    decreases |files|
  {
    if files == [] then 0.0 else FiveFlavourShareBin(files[0], b) + FiveFlavourBin(files[1..], b)
  }

  ghost predicate HasScoreBinning(s: Sums) {
    |s.fourFlavour| == ScoreBins && |s.fiveFlavour| == ScoreBins
  }

  /** The score histogram of a tt+bb or tt+bj file has the sums' 20 bins, so
      that adding it is bin-wise addition. */
  ghost predicate ScoreBinned(f: RootFile) {
    HasBottomPair(f.path) && BaseName in f.contents ==> |f.contents[BaseName]| == ScoreBins
  }

  ghost predicate AllScoreBinned(files: seq<RootFile>) {
    forall i :: 0 <= i < |files| ==> ScoreBinned(files[i])
  }

  lemma VisitFileEvents(s: Sums, f: RootFile, m: Mismatch)
    requires HasScoreBinning(s) && ScoreBinned(f) && VisitFile(s, f, m).Ok?
    ensures HasScoreBinning(VisitFile(s, f, m).value)
    ensures Integral(VisitFile(s, f, m).value.fourFlavour) == Integral(s.fourFlavour) + FourFlavourShare(f)
    ensures Integral(VisitFile(s, f, m).value.fiveFlavour) == Integral(s.fiveFlavour) + FiveFlavourShare(f)
  {
    VisitFileEffect(s, f, m);
    if HasBottomPair(f.path) && BaseName in f.contents {
      var h := f.contents[BaseName];
      IntegralOfAdd(s.fourFlavour, h, m);
      IntegralOfAdd(Add(s.fourFlavour, h, m), h, m);
      IntegralOfAdd(s.fiveFlavour, h, m);
    }
  }

  lemma RoutedBins(s: Sums, f: RootFile, m: Mismatch)
    requires HasScoreBinning(s) && ScoreBinned(f)
    ensures forall b :: 0 <= b < ScoreBins ==>
      Routed(s, f, m).fourFlavour[b] == s.fourFlavour[b] + FourFlavourShareBin(f, b)
    ensures forall b :: 0 <= b < ScoreBins ==>
      Routed(s, f, m).fiveFlavour[b] == s.fiveFlavour[b] + FiveFlavourShareBin(f, b)
  {
    var four := Contains(f.path, "4F");
    var five := Contains(f.path, "5F");
    if HasBottomPair(f.path) && BaseName in f.contents && four && five {
      var h := f.contents[BaseName];
      var once := Add(s.fourFlavour, h, m);
      assert forall b :: 0 <= b < ScoreBins ==> Add(once, h, m)[b] == s.fourFlavour[b] + 2.0 * h[b];
    }
  }

  /** Bin by bin, a file adds its share to each sum. */
  lemma VisitFileBins(s: Sums, f: RootFile, m: Mismatch)
    requires HasScoreBinning(s) && ScoreBinned(f) && VisitFile(s, f, m).Ok?
    ensures HasScoreBinning(VisitFile(s, f, m).value)
    ensures forall b :: 0 <= b < ScoreBins ==>
      VisitFile(s, f, m).value.fourFlavour[b] == s.fourFlavour[b] + FourFlavourShareBin(f, b)
    ensures forall b :: 0 <= b < ScoreBins ==>
      VisitFile(s, f, m).value.fiveFlavour[b] == s.fiveFlavour[b] + FiveFlavourShareBin(f, b)
  {
    VisitFileEvents(s, f, m);
    VisitFileEffect(s, f, m);
    RoutedBins(s, f, m);
  }

  // ---------------------------------------------------------------------
  // What the whole loop computes

  /** When every score histogram has 20 bins, each bin of each sum gains that
      bin of every file's share. */
  lemma {:induction false} BinsOverFiles(s: Sums, files: seq<RootFile>, m: Mismatch)
    requires HasScoreBinning(s) && AllScoreBinned(files) && VisitFiles(s, files, m).Ok?
    ensures HasScoreBinning(VisitFiles(s, files, m).value)
    ensures forall b :: 0 <= b < ScoreBins ==>
      VisitFiles(s, files, m).value.fourFlavour[b] == s.fourFlavour[b] + FourFlavourBin(files, b)
    ensures forall b :: 0 <= b < ScoreBins ==>
      VisitFiles(s, files, m).value.fiveFlavour[b] == s.fiveFlavour[b] + FiveFlavourBin(files, b)
    decreases |files|
  {
    EventsOverFiles(s, files, m);
    if files != [] {
      VisitFileEvents(s, files[0], m);
      VisitFileBins(s, files[0], m);
      var next := VisitFile(s, files[0], m).value;
      assert VisitFiles(s, files, m) == VisitFiles(next, files[1..], m);
      assert forall i :: 0 <= i < |files[1..]| ==> files[1..][i] == files[i + 1];
      BinsOverFiles(next, files[1..], m);
    }
  }

  /** When every score histogram has 20 bins, every step keeps the sums at
      20 bins and adds each file's share. */
  lemma {:induction false} EventsOverFiles(s: Sums, files: seq<RootFile>, m: Mismatch)
    requires HasScoreBinning(s) && AllScoreBinned(files) && VisitFiles(s, files, m).Ok?
    ensures HasScoreBinning(VisitFiles(s, files, m).value)
    ensures Integral(VisitFiles(s, files, m).value.fourFlavour) == Integral(s.fourFlavour) + FourFlavourEvents(files)
    ensures Integral(VisitFiles(s, files, m).value.fiveFlavour) == Integral(s.fiveFlavour) + FiveFlavourEvents(files)
    decreases |files|
  {
    if files != [] {
      VisitFileEvents(s, files[0], m);
      var next := VisitFile(s, files[0], m).value;
      assert VisitFiles(s, files, m) == VisitFiles(next, files[1..], m);
      assert forall i :: 0 <= i < |files[1..]| ==> files[1..][i] == files[i + 1];
      EventsOverFiles(next, files[1..], m);
    }
  }

  /** When the score histograms share the sums' 20 bins, the plotted sums
      have 20 bins; the 4F sum holds, bin by bin, every 4F-path file's score
      histogram (twice for a path naming both schemes), the 5F sum those of
      the other 5F-path files, and the ratio is their bin-by-bin quotient. */
  lemma ComparisonTotals(files: seq<RootFile>, m: Mismatch)
    requires AllScoreBinned(files) && CompareFlavourSchemes(files, m).Ok?
    ensures var c := CompareFlavourSchemes(files, m).value;
      |c.fourFlavour| == ScoreBins && |c.fiveFlavour| == ScoreBins && |c.ratio| == ScoreBins &&
      Integral(c.fourFlavour) == FourFlavourEvents(files) &&
      Integral(c.fiveFlavour) == FiveFlavourEvents(files) &&
      forall b :: 0 <= b < ScoreBins ==>
        && c.fourFlavour[b] == FourFlavourBin(files, b)
        && c.fiveFlavour[b] == FiveFlavourBin(files, b)
        && c.ratio[b] == if FiveFlavourBin(files, b) == 0.0 then 0.0 else FourFlavourBin(files, b) / FiveFlavourBin(files, b)
  {
    IntegralOfZeros(ScoreBins);
    EventsOverFiles(Start, files, m);
    BinsOverFiles(Start, files, m);
  }

  /** `[f for f in files if "bb" in f or "bj" in f]` */
  function BottomPairFiles(files: seq<RootFile>): (r: seq<RootFile>)
    ensures forall f :: f in r <==> f in files && HasBottomPair(f.path)
  {
    if files == [] then []
    else if HasBottomPair(files[0].path) then [files[0]] + BottomPairFiles(files[1..])
    else BottomPairFiles(files[1..])
  }

  /** Files of other samples change nothing, even those that do not open. */
  lemma {:induction false} OtherSamplesAreIgnored(s: Sums, files: seq<RootFile>, m: Mismatch)
    ensures VisitFiles(s, files, m) == VisitFiles(s, BottomPairFiles(files), m)
    decreases |files|
  {
    if files != [] {
      var f := files[0];
      if HasBottomPair(f.path) {
        assert BottomPairFiles(files)[1..] == BottomPairFiles(files[1..]);
        match VisitFile(s, f, m)
        case Err(_) =>
        case Ok(next) => OtherSamplesAreIgnored(next, files[1..], m);
      } else {
        OtherSamplesAreIgnored(s, files[1..], m);
      }
    }
  }

  /** The loop fails only on a tt+bb or tt+bj file that does not open, or on
      such a file that names a scheme and lacks the score histogram. */
  lemma {:induction false} ComparisonFaults(s: Sums, files: seq<RootFile>, m: Mismatch)
    ensures VisitFiles(s, files, m).Err? ==>
      exists i :: 0 <= i < |files| && HasBottomPair(files[i].path) &&
        ((VisitFiles(s, files, m).error == FileNotFound(files[i].path) && !files[i].opens) ||
         (VisitFiles(s, files, m).error == HistogramNotFound(BaseName, files[i].path) &&
          BaseName !in files[i].contents &&
          (Contains(files[i].path, "4F") || Contains(files[i].path, "5F"))))
    decreases |files|
  {
    if files != [] {
      VisitFileEffect(s, files[0], m);
      match VisitFile(s, files[0], m)
      case Err(e) =>
        assert HasBottomPair(files[0].path);
      case Ok(next) =>
        ComparisonFaults(next, files[1..], m);
        if VisitFiles(s, files, m).Err? {
          var i :| 0 <= i < |files[1..]| && HasBottomPair(files[1..][i].path) &&
            ((VisitFiles(next, files[1..], m).error == FileNotFound(files[1..][i].path) && !files[1..][i].opens) ||
             (VisitFiles(next, files[1..], m).error == HistogramNotFound(BaseName, files[1..][i].path) &&
              BaseName !in files[1..][i].contents &&
              (Contains(files[1..][i].path, "4F") || Contains(files[1..][i].path, "5F"))));
          assert files[1..][i] == files[i + 1];
        }
    }
  }
}
