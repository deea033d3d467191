/** `plot_unstacked` (plotUnstacked.py, lines 12-107): one histogram read
    from every file, each normalized, the Wcb one and the one of the chosen
    process kept for a ratio, the backgrounds summed into a fixed 100-bin
    histogram, and the signal and chosen process drawn. */
module Unstacked {
  import opened Strings
  import opened Results
  import opened Histograms
  import opened ProcessNames

  /** `ROOT.TH1D("sum_of_backgrounds", ..., 100, 0, 1)` */
  const BackgroundBins: nat := 100

  /** A file with the label the loop resolves for it first (lines 48-54). */
  type NamedFile = (string, RootFile)

  function Named(files: seq<RootFile>): (named: seq<NamedFile>)
    ensures |named| == |files|
    ensures forall i :: 0 <= i < |files| ==> named[i] == (ResolveProcessName(files[i].path), files[i])
  {
    seq(|files|, i requires 0 <= i < |files| => (ResolveProcessName(files[i].path), files[i]))
  }

  /** What the loop carries from file to file: the drawn histograms with
      their labels, the Wcb and chosen-process histograms, and the sum of
      backgrounds. */
  datatype Overlay = Overlay(drawn: seq<(string, Hist)>, wcb: Option<Hist>, selected: Option<Hist>, backgrounds: Hist)

  const Start: Overlay := Overlay([], None, None, Zeros(BackgroundBins))

  /** One iteration of the loop over the files (lines 56-94), for a file
      whose label is `name`. */
  function Visit(s: Overlay, name: string, f: RootFile, histName: string, shown: string, normalization: int, m: Mismatch): Result<Overlay> {
    if !f.opens then Err(FileNotFound(f.path))
    else
      match Get(f, histName)
      case Err(e) => Err(e)
      case Ok(h) =>
        match Normalize(h, normalization as real)
        case Err(e) => Err(e)
        case Ok(g) =>
          Ok(Overlay(
            if IsDrawn(name, shown) then s.drawn + [(name, g)] else s.drawn,
            if name == "Wcb" then Some(g) else s.wcb,
            if name != "Wcb" && name == shown then Some(g) else s.selected,
            if InSumOfBackgrounds(name) then Add(s.backgrounds, g, m) else s.backgrounds))
  }

  function VisitAll(s: Overlay, named: seq<NamedFile>, histName: string, shown: string, normalization: int, m: Mismatch): Result<Overlay>
    decreases |named|
  {
    if named == [] then Ok(s)
    else
      match Visit(s, named[0].0, named[0].1, histName, shown, normalization, m)
      case Err(e) => Err(e)
      case Ok(next) => VisitAll(next, named[1..], histName, shown, normalization, m)
  }

  /** What is drawn: the overlaid histograms, the normalized sum of
      backgrounds and, when both were found, the Wcb / process ratio. */
  datatype Plot = Plot(drawn: seq<(string, Hist)>, backgrounds: Hist, ratio: Option<Hist>)

  /** After the loop (lines 96-107). */
  function Finish(s: Overlay, normalization: int, m: Mismatch): Result<Plot> {
    match Normalize(s.backgrounds, normalization as real)
    case Err(e) => Err(e)
    case Ok(b) =>
      Ok(Plot(s.drawn, b,
        if s.wcb.Some? && s.selected.Some? then Some(Divide(s.wcb.value, s.selected.value, m)) else None))
  }

  /** The whole of `plot_unstacked`, the `--process` lookup first. */
  function UnstackedPlot(files: seq<RootFile>, histName: string, process: string, normalization: int, m: Mismatch): Result<Plot> {
    match ProcessLabel(process)
    case Err(e) => Err(e)
    case Ok(shown) =>
      match VisitAll(Start, Named(files), histName, shown, normalization, m)
      case Err(e) => Err(e)
      case Ok(s) => Finish(s, normalization, m)
  }

  /** The loop of `plot_unstacked`, reassigning its local histogram slots,
      overlay list and background sum file by file. */
  method PlotUnstacked(files: seq<RootFile>, histName: string, process: string, normalization: int, m: Mismatch) returns (r: Result<Plot>)
    ensures r == UnstackedPlot(files, histName, process, normalization, m)
  {
    var lookup := ProcessLabel(process);
    if lookup.Err? {
      return Err(lookup.error);
    }
    var shown := lookup.value;
    ghost var named := Named(files);
    var drawn: seq<(string, Hist)> := [];
    var wcb: Option<Hist> := None;
    var selected: Option<Hist> := None;
    var backgrounds := Zeros(BackgroundBins);
    var i := 0;
    while i < |files|
      invariant 0 <= i <= |files|
      invariant VisitAll(Start, named, histName, shown, normalization, m) ==
        VisitAll(Overlay(drawn, wcb, selected, backgrounds), named[i..], histName, shown, normalization, m)
    {
      var f := files[i];
      var name := ResolveProcessName(f.path);
      assert named[i..][0] == (name, f) && named[i..][1..] == named[i + 1..];
      if !f.opens {
        return Err(FileNotFound(f.path));
      }
      if histName !in f.contents {
        return Err(HistogramNotFound(histName, f.path));
      }
      var h := f.contents[histName];
      var total := Integral(h);
      if total == 0.0 {
        return Err(ZeroDivision);
      }
      var g := Scale(h, normalization as real / total);
      if name == "Wcb" {
        wcb := Some(g);
      } else if name == shown {
        selected := Some(g);
      }
      if InSumOfBackgrounds(name) {
        backgrounds := Add(backgrounds, g, m);
      }
      if IsDrawn(name, shown) {
        drawn := drawn + [(name, g)];
      }
      i := i + 1;
    }
    assert named[|files|..] == [];
    var sum := Integral(backgrounds);
    if sum == 0.0 {
      return Err(ZeroDivision);
    }
    var ratio: Option<Hist> := None;
    if wcb.Some? && selected.Some? {
      ratio := Some(Divide(wcb.value, selected.value, m));
    }
    r := Ok(Plot(drawn, Scale(backgrounds, normalization as real / sum), ratio));
  }

  // ---------------------------------------------------------------------
  // What the plot holds

  /** The legend labels of the drawn histograms, in drawing order. */
  function Labels(drawn: seq<(string, Hist)>): seq<string> {
    if drawn == [] then [] else [drawn[0].0] + Labels(drawn[1..])
  }

  lemma {:induction false} LabelsOfAppend(drawn: seq<(string, Hist)>, name: string, h: Hist)
    ensures Labels(drawn + [(name, h)]) == Labels(drawn) + [name]
    decreases |drawn|
  {
    if drawn == [] {
      assert drawn + [(name, h)] == [(name, h)];
    } else {
      assert (drawn + [(name, h)])[1..] == drawn[1..] + [(name, h)];
      LabelsOfAppend(drawn[1..], name, h);
    }
  }

  /** The labels of the files that are drawn, in file order. */
  function DrawnNames(named: seq<NamedFile>, shown: string): seq<string> {
    if named == [] then []
    else (if IsDrawn(named[0].0, shown) then [named[0].0] else []) + DrawnNames(named[1..], shown)
  }

  /** The files whose histogram is added into the sum: background labels
      (line 82) whose file holds the histogram. */
  function BackgroundCount(named: seq<NamedFile>, histName: string): nat {
    if named == [] then 0
    else
      (if InSumOfBackgrounds(named[0].0) && histName in named[0].1.contents then 1 else 0) +
      BackgroundCount(named[1..], histName)
  }

  /** Every background file's histogram has `bins` bins, so that each `Add`
      into a sum of that many bins is bin-wise addition. */
  ghost predicate BackgroundsBinned(named: seq<NamedFile>, histName: string, bins: nat) {
    forall i :: 0 <= i < |named| && InSumOfBackgrounds(named[i].0) && histName in named[i].1.contents ==>
      |named[i].1.contents[histName]| == bins
  }

  ghost predicate SomeFileNamed(named: seq<NamedFile>, name: string) {
    exists i :: 0 <= i < |named| && named[i].0 == name
  }

  /** Every drawn histogram has been normalized to the target. */
  ghost predicate Normalized(drawn: seq<(string, Hist)>, normalization: int) {
    forall i :: 0 <= i < |drawn| ==> Integral(drawn[i].1) == normalization as real
  }

  /** A file's histogram as the loop normalizes it (line 72); empty for a
      file on which the loop fails. */
  function NormalizedOf(f: RootFile, histName: string, normalization: int): Hist {
    if histName in f.contents && Integral(f.contents[histName]) != 0.0
    then Scale(f.contents[histName], normalization as real / Integral(f.contents[histName]))
    else []
  }

  /** What the overlay draws: each drawn file's own normalized histogram
      under its label, in file order. */
  function DrawnEntries(named: seq<NamedFile>, histName: string, shown: string, normalization: int): seq<(string, Hist)> {
    if named == [] then []
    else
      (if IsDrawn(named[0].0, shown) then [(named[0].0, NormalizedOf(named[0].1, histName, normalization))] else []) +
      DrawnEntries(named[1..], histName, shown, normalization)
  }

  /** The normalized histogram of the last file labelled `name`, if any. */
  function LastNamed(named: seq<NamedFile>, name: string, histName: string, normalization: int): Option<Hist> {
    if named == [] then None
    else
      var later := LastNamed(named[1..], name, histName, normalization);
      if later.Some? then later
      else if named[0].0 == name then Some(NormalizedOf(named[0].1, histName, normalization))
      else None
  }

  function Latest(later: Option<Hist>, earlier: Option<Hist>): Option<Hist> {
    if later.Some? then later else earlier
  }

  /** Bin `b` summed over the normalized histograms of the background files. */
  function BackgroundBin(named: seq<NamedFile>, histName: string, normalization: int, b: nat): real {
    if named == [] then 0.0
    else
      var g := NormalizedOf(named[0].1, histName, normalization);
      (if InSumOfBackgrounds(named[0].0) && b < |g| then g[b] else 0.0) +
      BackgroundBin(named[1..], histName, normalization, b)
  }

  /** What one file does to the overlay and to the two ratio slots. */
  lemma VisitEntries(s: Overlay, name: string, f: RootFile, histName: string, shown: string, normalization: int, m: Mismatch)
    requires Visit(s, name, f, histName, shown, normalization, m).Ok?
    ensures var n := Visit(s, name, f, histName, shown, normalization, m).value;
      var g := NormalizedOf(f, histName, normalization);
      && n.drawn == s.drawn + (if IsDrawn(name, shown) then [(name, g)] else [])
      && n.wcb == (if name == "Wcb" then Some(g) else s.wcb)
      && n.selected == (if name != "Wcb" && name == shown then Some(g) else s.selected)
  {
  }

  /** Over a successful loop the overlay gains the drawn files' own
      normalized histograms, in file order. */
  lemma {:induction false} EntriesOverLoop(s: Overlay, named: seq<NamedFile>, histName: string, shown: string, normalization: int, m: Mismatch)
    requires VisitAll(s, named, histName, shown, normalization, m).Ok?
    ensures VisitAll(s, named, histName, shown, normalization, m).value.drawn ==
      s.drawn + DrawnEntries(named, histName, shown, normalization)
    decreases |named|
  {
    if named == [] {
      assert s.drawn + [] == s.drawn;
    } else {
      var (name, f) := named[0];
      VisitAllStep(s, named, histName, shown, normalization, m);
      var next := Visit(s, name, f, histName, shown, normalization, m).value;
      VisitEntries(s, name, f, histName, shown, normalization, m);
      EntriesOverLoop(next, named[1..], histName, shown, normalization, m);
      var here := if IsDrawn(name, shown) then [(name, NormalizedOf(f, histName, normalization))] else [];
      var rest := DrawnEntries(named[1..], histName, shown, normalization);
      assert next.drawn == s.drawn + here;
      assert DrawnEntries(named, histName, shown, normalization) == here + rest;
      AppendAssociates(s.drawn, here, rest);
    }
  }

  lemma AppendAssociates(a: seq<(string, Hist)>, b: seq<(string, Hist)>, c: seq<(string, Hist)>)
    ensures a + b + c == a + (b + c)
  {
  }

  /** Over a successful loop each ratio slot ends holding the normalized
      histogram of the last file of its label; a Wcb file never fills the
      process slot. */
  lemma {:induction false} LatestOverLoop(s: Overlay, named: seq<NamedFile>, histName: string, shown: string, normalization: int, m: Mismatch)
    requires VisitAll(s, named, histName, shown, normalization, m).Ok?
    ensures var e := VisitAll(s, named, histName, shown, normalization, m).value;
      && e.wcb == Latest(LastNamed(named, "Wcb", histName, normalization), s.wcb)
      && e.selected == if shown == "Wcb" then s.selected else Latest(LastNamed(named, shown, histName, normalization), s.selected)
    decreases |named|
  {
    if named != [] {
      var (name, f) := named[0];
      var next := Visit(s, name, f, histName, shown, normalization, m).value;
      VisitEntries(s, name, f, histName, shown, normalization, m);
      LatestOverLoop(next, named[1..], histName, shown, normalization, m);
    }
  }

  /** One file adds its label to the overlay exactly when it is drawn. */
  lemma VisitDraws(s: Overlay, name: string, f: RootFile, histName: string, shown: string, normalization: int, m: Mismatch)
    requires Visit(s, name, f, histName, shown, normalization, m).Ok?
    ensures var n := Visit(s, name, f, histName, shown, normalization, m).value;
      Labels(n.drawn) == Labels(s.drawn) + (if IsDrawn(name, shown) then [name] else [])
  {
    if IsDrawn(name, shown) {
      var g := Normalize(f.contents[histName], normalization as real).value;
      LabelsOfAppend(s.drawn, name, g);
    }
  }

  /** What one file adds to the overlay has been normalized. */
  lemma VisitNormalizes(s: Overlay, name: string, f: RootFile, histName: string, shown: string, normalization: int, m: Mismatch)
    requires Visit(s, name, f, histName, shown, normalization, m).Ok?
    requires Normalized(s.drawn, normalization)
    ensures Normalized(Visit(s, name, f, histName, shown, normalization, m).value.drawn, normalization)
  {
    NormalizeMeetsTarget(f.contents[histName], normalization as real);
  }

  /** One file's normalized histogram is added into the sum exactly when its
      label is a background (line 82); when it has the sum's binning, the sum
      keeps its bins and gains the normalization. */
  lemma VisitSums(s: Overlay, name: string, f: RootFile, histName: string, shown: string, normalization: int, m: Mismatch)
    requires Visit(s, name, f, histName, shown, normalization, m).Ok?
    ensures histName in f.contents
    ensures var n := Visit(s, name, f, histName, shown, normalization, m).value;
      n.backgrounds == if InSumOfBackgrounds(name)
        then Add(s.backgrounds, Normalize(f.contents[histName], normalization as real).value, m)
        else s.backgrounds
    ensures var n := Visit(s, name, f, histName, shown, normalization, m).value;
      |f.contents[histName]| == |s.backgrounds| ==>
        && |n.backgrounds| == |s.backgrounds|
        && Integral(n.backgrounds) == Integral(s.backgrounds) + (if InSumOfBackgrounds(name) then normalization as real else 0.0)
        && |NormalizedOf(f, histName, normalization)| == |s.backgrounds|
        && forall b :: 0 <= b < |s.backgrounds| ==>
             n.backgrounds[b] == s.backgrounds[b] + (if InSumOfBackgrounds(name) then NormalizedOf(f, histName, normalization)[b] else 0.0)
  {
    var h := f.contents[histName];
    var g := Normalize(h, normalization as real).value;
    NormalizeMeetsTarget(h, normalization as real);
    if |h| == |s.backgrounds| {
      IntegralOfAdd(s.backgrounds, g, m);
    }
  }

  /** A successful loop is a successful first step followed by a successful
      rest. */
  lemma VisitAllStep(s: Overlay, named: seq<NamedFile>, histName: string, shown: string, normalization: int, m: Mismatch)
    requires named != [] && VisitAll(s, named, histName, shown, normalization, m).Ok?
    ensures Visit(s, named[0].0, named[0].1, histName, shown, normalization, m).Ok?
    ensures VisitAll(s, named, histName, shown, normalization, m) ==
      VisitAll(Visit(s, named[0].0, named[0].1, histName, shown, normalization, m).value, named[1..], histName, shown, normalization, m)
  {
  }

  /** Over a successful loop the overlay draws exactly the Wcb and chosen
      process files, in file order. */
  lemma {:induction false} DrawnOverLoop(s: Overlay, named: seq<NamedFile>, histName: string, shown: string, normalization: int, m: Mismatch)
    requires VisitAll(s, named, histName, shown, normalization, m).Ok?
    ensures Labels(VisitAll(s, named, histName, shown, normalization, m).value.drawn) == Labels(s.drawn) + DrawnNames(named, shown)
    decreases |named|
  {
    if named != [] {
      var (name, f) := named[0];
      VisitAllStep(s, named, histName, shown, normalization, m);
      var next := Visit(s, name, f, histName, shown, normalization, m).value;
      VisitDraws(s, name, f, histName, shown, normalization, m);
      DrawnOverLoop(next, named[1..], histName, shown, normalization, m);
      var here := if IsDrawn(name, shown) then [name] else [];
      var rest := DrawnNames(named[1..], shown);
      assert Labels(next.drawn) == Labels(s.drawn) + here;
      assert DrawnNames(named, shown) == here + rest;
      NamesAssociate(Labels(s.drawn), here, rest);
    }
  }

  lemma NamesAssociate(a: seq<string>, b: seq<string>, c: seq<string>)
    ensures a + b + c == a + (b + c)
  {
  }

  /** Over a successful loop every drawn histogram is normalized. */
  lemma {:induction false} NormalizedOverLoop(s: Overlay, named: seq<NamedFile>, histName: string, shown: string, normalization: int, m: Mismatch)
    requires VisitAll(s, named, histName, shown, normalization, m).Ok?
    requires Normalized(s.drawn, normalization)
    ensures Normalized(VisitAll(s, named, histName, shown, normalization, m).value.drawn, normalization)
    decreases |named|
  {
    if named != [] {
      var (name, f) := named[0];
      var next := Visit(s, name, f, histName, shown, normalization, m).value;
      VisitNormalizes(s, name, f, histName, shown, normalization, m);
      NormalizedOverLoop(next, named[1..], histName, shown, normalization, m);
    }
  }

  /** What the background files bring to the sum: the normalization, once
      per file counted by BackgroundCount. */
  function BackgroundMass(named: seq<NamedFile>, histName: string, normalization: int): real {
    if named == [] then 0.0
    else
      (if InSumOfBackgrounds(named[0].0) && histName in named[0].1.contents then normalization as real else 0.0) +
      BackgroundMass(named[1..], histName, normalization)
  }

  lemma {:induction false} BackgroundMassIsCount(named: seq<NamedFile>, histName: string, normalization: int)
    ensures BackgroundMass(named, histName, normalization) == normalization as real * BackgroundCount(named, histName) as real
    decreases |named|
  {
    if named != [] {
      BackgroundMassIsCount(named[1..], histName, normalization);
    }
  }

  /** Over a successful loop whose background histograms share the sum's
      100 bins, the sum keeps them and gains the normalization once per
      background file. */
  lemma {:induction false} BackgroundsOverLoop(s: Overlay, named: seq<NamedFile>, histName: string, shown: string, normalization: int, m: Mismatch)
    requires |s.backgrounds| == BackgroundBins
    requires BackgroundsBinned(named, histName, BackgroundBins)
    requires VisitAll(s, named, histName, shown, normalization, m).Ok?
    ensures var e := VisitAll(s, named, histName, shown, normalization, m).value;
      && |e.backgrounds| == BackgroundBins
      && Integral(e.backgrounds) == Integral(s.backgrounds) + BackgroundMass(named, histName, normalization)
      && forall b :: 0 <= b < BackgroundBins ==>
           e.backgrounds[b] == s.backgrounds[b] + BackgroundBin(named, histName, normalization, b)
    decreases |named|
  {
    if named != [] {
      var (name, f) := named[0];
      var next := Visit(s, name, f, histName, shown, normalization, m).value;
      VisitSums(s, name, f, histName, shown, normalization, m);
      assert InSumOfBackgrounds(name) ==> |f.contents[histName]| == BackgroundBins;
      forall i | 0 <= i < |named[1..]| && InSumOfBackgrounds(named[1..][i].0) && histName in named[1..][i].1.contents
        ensures |named[1..][i].1.contents[histName]| == BackgroundBins
      {
        assert named[1..][i] == named[i + 1];
      }
      BackgroundsOverLoop(next, named[1..], histName, shown, normalization, m);
      BackgroundBinStep(s, next, named, histName, normalization);
    }
  }

  /** The per-bin step of BackgroundsOverLoop. */
  lemma BackgroundBinStep(s: Overlay, next: Overlay, named: seq<NamedFile>, histName: string, normalization: int)
    requires named != [] && |s.backgrounds| == BackgroundBins && |next.backgrounds| == BackgroundBins
    requires InSumOfBackgrounds(named[0].0) ==> |NormalizedOf(named[0].1, histName, normalization)| == BackgroundBins
    requires forall b :: 0 <= b < BackgroundBins ==>
      next.backgrounds[b] == s.backgrounds[b] +
        (if InSumOfBackgrounds(named[0].0) then NormalizedOf(named[0].1, histName, normalization)[b] else 0.0)
    ensures forall b :: 0 <= b < BackgroundBins ==>
      next.backgrounds[b] + BackgroundBin(named[1..], histName, normalization, b) ==
      s.backgrounds[b] + BackgroundBin(named, histName, normalization, b)
  {
  }

  /** Over a successful loop the Wcb and process slots are filled exactly when
      such a file was seen; the process slot is never filled by a Wcb file. */
  lemma {:induction false} SlotsOverLoop(s: Overlay, named: seq<NamedFile>, histName: string, shown: string, normalization: int, m: Mismatch)
    requires VisitAll(s, named, histName, shown, normalization, m).Ok?
    ensures var e := VisitAll(s, named, histName, shown, normalization, m).value;
      && (e.wcb.Some? <==> s.wcb.Some? || SomeFileNamed(named, "Wcb"))
      && (e.selected.Some? <==> s.selected.Some? || (shown != "Wcb" && SomeFileNamed(named, shown)))
    decreases |named|
  {
    if named != [] {
      var (name, f) := named[0];
      var next := Visit(s, name, f, histName, shown, normalization, m).value;
      SlotsOverLoop(next, named[1..], histName, shown, normalization, m);
      SomeFileNamedStep(named, "Wcb");
      SomeFileNamedStep(named, shown);
    }
  }

  lemma SomeFileNamedStep(named: seq<NamedFile>, name: string)
    requires named != []
    ensures SomeFileNamed(named, name) <==> named[0].0 == name || SomeFileNamed(named[1..], name)
  {
    if SomeFileNamed(named[1..], name) {
      var i :| 0 <= i < |named[1..]| && named[1..][i].0 == name;
      assert named[i + 1].0 == name;
    }
    if SomeFileNamed(named, name) && named[0].0 != name {
      var i :| 0 <= i < |named| && named[i].0 == name;
      assert named[1..][i - 1].0 == name;
    }
  }

  /** An unknown `--process` is a KeyError before any file is read. */
  lemma UnknownProcessIsKeyError(files: seq<RootFile>, histName: string, process: string, normalization: int, m: Mismatch)
    ensures (forall j :: 0 <= j < |Beautifier| ==> Beautifier[j].0 != process) ==>
      UnstackedPlot(files, histName, process, normalization, m) == Err(KeyError(process))
  {
    LookupFindsKey(Beautifier, process);
  }

  /** A successful plot overlays exactly the Wcb and chosen-process files, in
      file order, each with its own histogram normalized to the target. */
  lemma UnstackedOverlay(files: seq<RootFile>, histName: string, process: string, normalization: int, m: Mismatch)
    ensures var p := UnstackedPlot(files, histName, process, normalization, m);
      p.Ok? ==>
        && p.value.drawn == DrawnEntries(Named(files), histName, ProcessLabel(process).value, normalization)
        && Labels(p.value.drawn) == DrawnNames(Named(files), ProcessLabel(process).value)
        && Normalized(p.value.drawn, normalization)
  {
    var p := UnstackedPlot(files, histName, process, normalization, m);
    if p.Ok? {
      var shown := ProcessLabel(process).value;
      var named := Named(files);
      assert Labels(Start.drawn) == [];
      DrawnOverLoop(Start, named, histName, shown, normalization, m);
      NormalizedOverLoop(Start, named, histName, shown, normalization, m);
      EntriesOverLoop(Start, named, histName, shown, normalization, m);
      assert [] + DrawnEntries(named, histName, shown, normalization) == DrawnEntries(named, histName, shown, normalization);
    }
  }

  /** A successful plot shows a background sum normalized to the target,
      whatever the binnings. When the background histograms share the sum's
      100 bins, the plotted sum has those bins, and after a successful loop
      the final normalization divides by zero exactly when the target is zero
      or no background file was read; otherwise each plotted bin is that bin
      summed over the normalized background histograms, divided by their
      number. */
  lemma UnstackedBackgrounds(files: seq<RootFile>, histName: string, process: string, normalization: int, m: Mismatch)
    ensures var p := UnstackedPlot(files, histName, process, normalization, m);
      p.Ok? ==> Integral(p.value.backgrounds) == normalization as real
    ensures var p := UnstackedPlot(files, histName, process, normalization, m);
      BackgroundsBinned(Named(files), histName, BackgroundBins) ==>
        p.Ok? ==> |p.value.backgrounds| == BackgroundBins
    ensures var p := UnstackedPlot(files, histName, process, normalization, m);
      (ProcessLabel(process).Ok? && BackgroundsBinned(Named(files), histName, BackgroundBins) &&
       VisitAll(Start, Named(files), histName, ProcessLabel(process).value, normalization, m).Ok?) ==>
        (p == Err(ZeroDivision) <==> normalization == 0 || BackgroundCount(Named(files), histName) == 0)
    ensures var p := UnstackedPlot(files, histName, process, normalization, m);
      (BackgroundsBinned(Named(files), histName, BackgroundBins) && p.Ok?) ==>
        forall b :: 0 <= b < BackgroundBins ==>
          p.value.backgrounds[b] == BackgroundBin(Named(files), histName, normalization, b) / BackgroundCount(Named(files), histName) as real
  {
    if ProcessLabel(process).Ok? {
      var shown := ProcessLabel(process).value;
      var named := Named(files);
      var v := VisitAll(Start, named, histName, shown, normalization, m);
      if v.Ok? {
        assert UnstackedPlot(files, histName, process, normalization, m) == Finish(v.value, normalization, m);
        FinishBackgrounds(v.value, normalization, m);
        if BackgroundsBinned(named, histName, BackgroundBins) {
          BinnedFinish(named, histName, shown, normalization, m);
        }
      }
    }
  }

  /** After a loop whose background histograms share the sum's 100 bins, the
      final normalization keeps them, and fails exactly when the target is
      zero or no background file was read. */
  lemma BinnedFinish(named: seq<NamedFile>, histName: string, shown: string, normalization: int, m: Mismatch)
    requires BackgroundsBinned(named, histName, BackgroundBins)
    requires VisitAll(Start, named, histName, shown, normalization, m).Ok?
    ensures var f := Finish(VisitAll(Start, named, histName, shown, normalization, m).value, normalization, m);
      && (f.Ok? ==> |f.value.backgrounds| == BackgroundBins)
      && (f.Err? <==> normalization == 0 || BackgroundCount(named, histName) == 0)
      && (f.Err? ==> f.error == ZeroDivision)
      && (f.Ok? ==> forall b :: 0 <= b < BackgroundBins ==>
            f.value.backgrounds[b] == BackgroundBin(named, histName, normalization, b) / BackgroundCount(named, histName) as real)
  {
    var e := VisitAll(Start, named, histName, shown, normalization, m).value;
    var count := BackgroundCount(named, histName);
    LoopBackgrounds(named, histName, shown, normalization, m);
    FinishDivides(e, normalization, count, m);
    var f := Finish(e, normalization, m);
    if f.Ok? {
      forall b | 0 <= b < BackgroundBins
        ensures f.value.backgrounds[b] == BackgroundBin(named, histName, normalization, b) / count as real
      {
        assert e.backgrounds[b] == BackgroundBin(named, histName, normalization, b);
      }
    }
  }

  /** Normalizing a 100-bin sum of `count` histograms, each brought to the
      normalization, fails exactly when the target or the count is zero, and
      otherwise divides every bin by the count. */
  lemma FinishDivides(e: Overlay, normalization: int, count: nat, m: Mismatch)
    requires |e.backgrounds| == BackgroundBins
    requires Integral(e.backgrounds) == normalization as real * count as real
    ensures var f := Finish(e, normalization, m);
      && (f.Ok? ==> |f.value.backgrounds| == BackgroundBins)
      && (f.Err? <==> normalization == 0 || count == 0)
      && (f.Err? ==> f.error == ZeroDivision)
      && (f.Ok? ==> forall b :: 0 <= b < BackgroundBins ==> f.value.backgrounds[b] == e.backgrounds[b] / count as real)
  {
    FinishBackgrounds(e, normalization, m);
    ProductIsZero(normalization, count);
    if normalization != 0 && count != 0 {
      var total := Integral(e.backgrounds);
      assert Finish(e, normalization, m).value.backgrounds == Scale(e.backgrounds, normalization as real / total);
      ScaledSum(e.backgrounds, total, normalization as real, count as real);
    }
  }

  lemma ProductIsZero(a: int, b: nat)
    ensures a as real * b as real == 0.0 <==> a == 0 || b == 0
  {
  }

  /** Scaling a sum of `c` histograms, each normalized to `n`, back to `n`
      divides every bin by `c`. */
  lemma ScaledSum(h: Hist, total: real, n: real, c: real)
    requires n != 0.0 && c != 0.0 && total == n * c
    ensures forall b :: 0 <= b < |h| ==> Scale(h, n / total)[b] == h[b] / c
  {
    QuotientOfProduct(n, c);
    ScaleByInverse(h, n / total, c);
  }

  lemma ScaleByInverse(h: Hist, k: real, c: real)
    requires c != 0.0 && k == 1.0 / c
    ensures forall b :: 0 <= b < |h| ==> Scale(h, k)[b] == h[b] / c
  {
    forall b | 0 <= b < |h|
      ensures Scale(h, k)[b] == h[b] / c
    {
      OverIsTimesInverse(h[b], c);
    }
  }

  lemma QuotientOfProduct(n: real, c: real)
    requires n != 0.0 && c != 0.0
    ensures n / (n * c) == 1.0 / c
  {
  }

  lemma OverIsTimesInverse(x: real, c: real)
    requires c != 0.0
    ensures (1.0 / c) * x == x / c
  {
  }

  /** When the background histograms share the sum's 100 bins, the loop
      leaves a 100-bin sum holding the normalization once per background
      file. */
  lemma LoopBackgrounds(named: seq<NamedFile>, histName: string, shown: string, normalization: int, m: Mismatch)
    requires BackgroundsBinned(named, histName, BackgroundBins)
    requires VisitAll(Start, named, histName, shown, normalization, m).Ok?
    ensures var e := VisitAll(Start, named, histName, shown, normalization, m).value;
      && |e.backgrounds| == BackgroundBins
      && Integral(e.backgrounds) == normalization as real * BackgroundCount(named, histName) as real
      && forall b :: 0 <= b < BackgroundBins ==> e.backgrounds[b] == BackgroundBin(named, histName, normalization, b)
  {
    IntegralOfZeros(BackgroundBins);
    BackgroundsOverLoop(Start, named, histName, shown, normalization, m);
    BackgroundMassIsCount(named, histName, normalization);
  }

  /** The final normalization keeps the sum's bins and meets the target, and
      fails exactly on an empty sum. */
  lemma FinishBackgrounds(s: Overlay, normalization: int, m: Mismatch)
    ensures Finish(s, normalization, m).Ok? ==>
      |Finish(s, normalization, m).value.backgrounds| == |s.backgrounds| &&
      Integral(Finish(s, normalization, m).value.backgrounds) == normalization as real
    ensures Finish(s, normalization, m).Err? <==> Integral(s.backgrounds) == 0.0
    ensures Finish(s, normalization, m).Err? ==> Finish(s, normalization, m).error == ZeroDivision
  {
    NormalizeMeetsTarget(s.backgrounds, normalization as real);
  }

  /** A successful plot has a ratio exactly when a Wcb file and a file of the
      chosen process, other than Wcb itself, were both read; it is the last
      Wcb file's normalized histogram divided by the last such file's. */
  lemma UnstackedRatio(files: seq<RootFile>, histName: string, process: string, normalization: int, m: Mismatch)
    ensures var p := UnstackedPlot(files, histName, process, normalization, m);
      p.Ok? ==> var shown := ProcessLabel(process).value;
        (p.value.ratio.Some? <==> SomeFileNamed(Named(files), "Wcb") && shown != "Wcb" && SomeFileNamed(Named(files), shown))
    ensures var p := UnstackedPlot(files, histName, process, normalization, m);
      p.Ok? ==> var shown := ProcessLabel(process).value;
        var w := LastNamed(Named(files), "Wcb", histName, normalization);
        var c := LastNamed(Named(files), shown, histName, normalization);
        p.value.ratio == if w.Some? && shown != "Wcb" && c.Some? then Some(Divide(w.value, c.value, m)) else None
  {
    if ProcessLabel(process).Ok? {
      var shown := ProcessLabel(process).value;
      var named := Named(files);
      if VisitAll(Start, named, histName, shown, normalization, m).Ok? {
        SlotsOverLoop(Start, named, histName, shown, normalization, m);
        LatestOverLoop(Start, named, histName, shown, normalization, m);
      }
    }
  }
}
