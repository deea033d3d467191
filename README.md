# PlotTools bookkeeping, modelled in Dafny

PlotTools is a set of plotting scripts for a tt̄ → W(cb) analysis. They read
ROOT histograms, one file per simulated sample, from a directory. This project
models the bookkeeping the scripts do around their plotting calls and proves
what that bookkeeping promises. It covers two source files.

**`plotUnstacked.py`:**
- `plot_unstacked`:
  - resolves each file's process label from its name;
  - normalizes each histogram;
  - overlays the Wcb and chosen-process histograms;
  - sums the backgrounds into a 100-bin histogram;
  - takes the Wcb / process ratio.
- `read_csv` turns the rows of a variables file into histogram names.
- `plot_purity`, `plot_purity_multiregion` and `compare_FSs` tally
  `[numerator, denominator]` pairs per category over the files. For each
  category they show purities or raw numerators, the 4F/5F ratio and the
  tick labels.
- `compare_4F5F_vs_score` routes the tt+bb and tt+bj score histograms into a
  four-flavour-scheme sum and a five-flavour-scheme sum, both of 20 bins, and
  divides one by the other.

**`weights_and_constants.py`:**
- the two classifier weight sets;
- the selection string of each event category;
- the binning table;
- the shared instance whose fields are the module-level `adhoc_selection` and
  `adhoc_binning`.

## Files and modules

- `strings.dfy`: module `Strings`. Python's string operations on `seq<char>`:
  - `in` (Contains);
  - `str.replace`, which replaces every occurrence, scanning left to right (ReplaceAll);
  - `str.split` on one character (Split);
  - `" && ".join` (Join);
  - `os.path.basename` (Basename).
- `histograms.dfy`: modules `Results` and `Histograms`.
  - `Results` holds the error and result types.
  - `Histograms` treats a ROOT file as a path, an "opens" flag and a map from
    histogram name to bin contents (`seq<real>`). `Integral`, `Scale`, `Add`
    and `Divide` act on those contents. What ROOT does when `Add` or `Divide`
    gets a histogram of another binning is a parameter (`Mismatch`).
- `process_names.dfy`: module `ProcessNames`. The label resolver and the
  overlay and background filters of `plot_unstacked`.
- `unstacked.dfy`: module `Unstacked`. The loop of `plot_unstacked`, as a
  method checked against a functional definition.
- `csv_rows.dfy`: module `CsvRows`. The `read_csv` comprehensions.
- `tallies.dfy`: module `Tallies`. One `[num, den]` pair, its purity and the
  4F/5F ratio list.
- `tally_reports.dfy`: module `TallyReports`. The common loop of the three
  purity reports. One method runs it with the report's key table and filter
  (`Mode`), and it is checked against a functional definition. Each key's
  final tally is proved equal to a sum of per-file credits.
- `tally_charts.dfy`: module `TallyCharts`. What each report draws from its
  tallies, as methods:
  - the series the key filters select;
  - the bar values;
  - the ratio;
  - the tick labels.
- `scheme_score.dfy`: module `SchemeScore`. The loops of
  `compare_4F5F_vs_score`, as a method checked against a functional
  definition.
- `weights_and_constants.dfy`: module `WeightsAndConstants`. The class
  `weights_and_constants`, as a datatype built once by `Init`.

## Model

| member | source | states |
|---|---|---|
| ProcessNames.ResolveProcessNameSpec | plotUnstacked.py:48-54 | The label is the value of the first beautifier key, in the order Wcb, ttLF, ttbb, ttbj, ttcc, ttcj, that occurs in the basename with `.root` and then `h_` deleted. When no key occurs, the cleaned name itself is the label. |
| ProcessNames.ResolveTtbbExample | plotUnstacked.py:48-54 | `h_ttbb-withDPS.root` resolves to `tt+bb`. |
| ProcessNames.ResolveDataExample | plotUnstacked.py:48-54 | `h_Data.root` matches no key and keeps the name `Data`. |
| ProcessNames.LookupFindsKey | plotUnstacked.py:42-43 | The dictionary lookup succeeds exactly when the key is in the table and then returns its value. Otherwise it raises KeyError. |
| Unstacked.PlotUnstacked | plotUnstacked.py:37-107 | The imperative loop, which reassigns its histogram slots, overlay list and background sum file by file, returns exactly the functional plot `UnstackedPlot`. |
| Unstacked.UnknownProcessIsKeyError | plotUnstacked.py:42-43 | A `--process` that is not a beautifier key fails with KeyError before any file is read. |
| Unstacked.UnstackedOverlay | plotUnstacked.py:46-94 | A successful plot draws, in file order, exactly the files whose label contains "Wcb" or the chosen label, each under its label with its own histogram normalized to the target (`DrawnEntries`). |
| Unstacked.UnstackedBackgrounds | plotUnstacked.py:37-96 | A successful plot's background sum has integral equal to the normalization, whatever the binnings. When every background histogram has the sum's 100 bins: the plotted sum has 100 bins; after a successful loop the final `Scale(normalization / Integral())` fails with ZeroDivision exactly when the normalization is 0 or no background file was read; and otherwise each plotted bin is that bin summed over the normalized background histograms, divided by their number. |
| Unstacked.LoopBackgrounds | plotUnstacked.py:37-83 | When every background histogram has the sum's 100 bins, the loop leaves a 100-bin sum whose every bin is that bin summed over the background files' normalized histograms, and whose integral is the normalization times their number. |
| Unstacked.UnstackedRatio | plotUnstacked.py:75-107 | A successful plot has a ratio exactly when some file is labelled Wcb and some file carries the chosen label, and that label is not Wcb. The ratio is then the last Wcb file's normalized histogram divided by the last chosen-process file's. |
| Unstacked.VisitSums | plotUnstacked.py:63-83 | When a file's histogram has the sum's number of bins, the sum keeps its bins, each bin gains that bin of the file's normalized histogram exactly when its label contains neither "Wcb" nor "Data", and the integral grows by the normalization in that case. |
| Histograms.NormalizeMeetsTarget | plotUnstacked.py:72 | `Scale(normalization / Integral())` fails with ZeroDivision exactly when the integral is zero. Otherwise it keeps the binning and brings the integral to the target. |
| Histograms.NormalizeIdempotent | plotUnstacked.py:72 | Normalizing a normalized histogram to the same non-zero target changes nothing. |
| Histograms.IntegralOfAdd | plotUnstacked.py:83 | Adding an equally binned histogram adds its integral to the sum's. |
| Histograms.AddCommutes | plotUnstacked.py:83 | Accumulating matching histograms does not depend on their order. |
| Histograms.DivideBySelf | plotUnstacked.py:106-107 | `Divide` gives one in every filled bin and zero in every empty bin of a histogram divided by itself. |
| CsvRows.VariableNames | plotUnstacked.py:185 | The comprehension fails with IndexError exactly when some row is empty. Otherwise it keeps exactly the first fields that are not `Variable`, and never more names than rows. |
| CsvRows.VariableNamesOfAppend | plotUnstacked.py:185 | The names keep the order of the rows: reading two blocks of rows is reading each and concatenating. |
| CsvRows.Prefixed | plotUnstacked.py:186 | Each histogram name is `h_` followed by the variable name. |
| CsvRows.HistogramNamesRoundTrip | plotUnstacked.py:185-186 | Stripping the two-character prefix from each histogram name gives its variable name back, and reading the names fails exactly when reading the variables does. |
| Tallies.RecordKeepsValid | plotUnstacked.py:233-235 | Recording a non-negative integral keeps a valid tally valid: 0 ≤ numerator ≤ denominator. |
| Tallies.PurityIsFraction | plotUnstacked.py:349-351 | With a positive denominator the purity times the denominator is the numerator. Otherwise the purity is exactly 0. A valid tally's purity lies in [0, 1]. |
| Tallies.RatioOfSchemes | plotUnstacked.py:463 | The ratio list is as long as the shorter series. Each element is v4F / v5F, or 0 where v5F ≤ 0. |
| Tallies.RatioOfSchemesSigns | plotUnstacked.py:463 | Ratios of non-negative values are non-negative. A positive series divided by itself is all ones. |
| TallyReports.AccumulateTallies | plotUnstacked.py:208-235 | The imperative loop over files and keys, which reassigns the tally map as it goes, returns exactly the functional `TallyFrom` of the report's key table. The same holds for the loops at lines 298-337 and 417-449. |
| TallyReports.CountFile | plotUnstacked.py:219-235 | The inner loop over the keys of one file equals the functional `StepKeys`. |
| TallyReports.AccumulatedTallies | plotUnstacked.py:208-235 | Each key's final tally is the sum over the files of what each file credits to that key. With non-negative histograms it is valid. |
| TallyReports.TallyIsTotal | plotUnstacked.py:208-235 | Over any starting table with distinct keys, each key's tally ends as its start plus the total credit of the files. |
| TallyReports.DataFilesAreIgnored | plotUnstacked.py:210-211 | Dropping every file whose path contains "Data" gives the same result, faults included. The same holds at lines 301-302 and 420-421. |
| TallyReports.MultiRegionRules | plotUnstacked.py:312-337 | A multi-region pair is counted only if three conditions hold: the region token occurs in the path; an fscore key meets an fscore file; and a score key meets an fscore file only for Wcb. When the rules pass and the base histogram exists, its integral is counted. It goes to the numerator exactly when the process token (`ttWcb` for Wcb) occurs in the path. |
| TallyReports.SchemeRules | plotUnstacked.py:431-449 | A `compare_FSs` pair is skipped exactly when the scheme token is absent from the path. Otherwise the integral is counted, and goes to the numerator exactly when the chosen process occurs in the path. |
| TallyReports.ReportFaults | plotUnstacked.py:214-227 | A report fails only in two ways: a non-data file that does not open (FileNotFound on its path), or a missing histogram. The same holds at lines 305-329 and 424-440. |
| TallyReports.NoOwnEventsNoNumerator | plotUnstacked.py:233-239 | A key for which no file of its own process is counted keeps a zero numerator and a zero purity. |
| TallyReports.KeyTablesAreWellFormed | plotUnstacked.py:201-206 | Each key table lists every key once, and every key has a `_` field separator. The same holds for the tables at lines 280-296 and 404-415. |
| TallyCharts.PlotPurity | plotUnstacked.py:237-247 | The chart fails exactly when the tally loop does, and only with a report fault. The six bars are, in key order, the purities of each key's total. With non-negative histograms each bar lies in [0, 1]. The labels are Wcb, tt+LF, tt+bb, tt+bj, tt+cc, tt+cj. |
| TallyCharts.PlotPurityMultiRegion | plotUnstacked.py:339-361 | For each class in order, the bars show the purity or raw numerator of three totals: its `_CR` score key; its fscore `_CR` key (the score key for Wcb); and its `_SR` score key. The labels are the six class labels. Faults are as in the tally loop. |
| TallyCharts.CompareSchemes | plotUnstacked.py:451-473 | For each category in order, the bars show the `_4F` total and the `_5F` total. The ratio is their element-wise quotient. The labels are the six class labels. |
| TallyCharts.RegionSeries | plotUnstacked.py:339-341 | The CR filter selects each class's `h_score_<class>_CR` key in class order. The SR filter selects each class's `_SR` key in class order. |
| TallyCharts.FscoreSeries | plotUnstacked.py:340 | The fscore filter selects `h_score_tt_Wcb_CR`, then the five `h_fscore_<class>_CR` keys in class order. |
| TallyCharts.SchemeSeries | plotUnstacked.py:451-452 | The 4F and 5F filters select, category by category, the `_4F` and `_5F` key of the same category. |
| TallyCharts.PurityLabels | plotUnstacked.py:241-247 | The rewrite chain maps the six `plot_purity` keys to Wcb, tt+LF, tt+bb, tt+bj, tt+cc, tt+cj. |
| TallyCharts.RegionLabels | plotUnstacked.py:354-361 | The rewrite chain maps the selected CR keys to the six class labels. |
| TallyCharts.SchemeLabels | plotUnstacked.py:465-473 | The rewrite chain maps the selected 4F keys to the six class labels. |
| TallyCharts.ShownIsBounded | plotUnstacked.py:344-351 | In raw mode the bar is the numerator, which is non-negative. Otherwise a valid tally's bar lies in [0, 1]. |
| SchemeScore.CompareFlavourSchemesVsScore | plotUnstacked.py:545-598 | The imperative loops over the files and the two keys, which reassign the two sums as they go, return exactly the functional comparison. |
| SchemeScore.VisitFileEffect | plotUnstacked.py:551-582 | Other samples change nothing. A tt+bb or tt+bj file that does not open fails. A file naming a scheme adds its `h_score_tt_Wcb` to the 4F sum whenever its path contains "4F" (twice if the path also contains "5F"). Otherwise it adds the histogram to the 5F sum. |
| SchemeScore.ComparisonTotals | plotUnstacked.py:545-598 | When every tt+bb and tt+bj score histogram has the sums' 20 bins, both sums and the ratio have 20 bins. Each bin of the 4F sum is that bin summed over the 4F-path files' score histograms, counted twice for a path also naming 5F; each bin of the 5F sum is that bin summed over the other 5F-path files. Each ratio bin is the 4F total over the 5F total, or 0 where the 5F total is 0. The integrals are the schemes' events. |
| SchemeScore.OtherSamplesAreIgnored | plotUnstacked.py:551-552 | Keeping only the tt+bb and tt+bj files gives the same result, even when the other files do not open. |
| SchemeScore.ComparisonFaults | plotUnstacked.py:555-571 | The loop fails only in two ways: a tt+bb or tt+bj file that does not open, or such a file that names a scheme and lacks the score histogram. |
| WeightsAndConstants.ActiveWeightValues | weights_and_constants.py:16-27 | The selections use the 0.1 ttLF set: ttLF 0.63, ttcc 0.09, ttcj 0.12, ttbb 0.04 and ttbj 0.1, each one's decimal text equal to its value. |
| WeightsAndConstants.WeightSetsShareClasses | weights_and_constants.py:9-22 | Both weight sets weigh exactly the five classes. |
| WeightsAndConstants.SignalSelection | weights_and_constants.py:30-34 | There are six selections. The `score_tt_Wcb` selection comes first and is the base cut and the SR cut joined by " && ". |
| WeightsAndConstants.FscoreFollowsRule | weights_and_constants.py:35-39 | Row i + 1 is `fscore_<class i>`. Its selection is built in order: the base cut, the CR cut, then `w[x] * score_x > w[y] * score_y` for every other class y in the order ttbb, ttbj, ttcc, ttcj, ttLF, all joined by " && ". |
| WeightsAndConstants.TableFollowsRule | weights_and_constants.py:33-40 | The same rule holds for the table built from any weight set that covers the classes. |
| WeightsAndConstants.ComparisonsAreTheOtherClasses | weights_and_constants.py:35-39 | Each fscore selection compares its class with exactly four classes: every other class, never itself. |
| WeightsAndConstants.RegionsAreExclusive | weights_and_constants.py:31-32 | The SR and CR cuts use the same threshold 0.85 with opposite strict inequalities. No score passes both, and every score except 0.85 passes exactly one. |
| WeightsAndConstants.FscoreCategoriesAreDisjoint | weights_and_constants.py:35-39 | No event passes the comparisons of two different classes. |
| WeightsAndConstants.BinningShape | weights_and_constants.py:33-48 | The selection table and the binning table list the same six categories in the same order. Every binning has three edges, from 0 to 1, strictly increasing. |
| WeightsAndConstants.ActiveWeights | weights_and_constants.py:27-52 | The module-level `adhoc_selection` and `adhoc_binning` are fields of one instance. Its selections are built with its own `weights_0p6ttWcb_and_0p1ttLF` field. |

## Behaviour worth knowing

- In `compare_4F5F_vs_score`, the 4F sum gets a file's histogram twice when
  the path contains both "4F" and "5F": once for each key
  (plotUnstacked.py:564, 579-582). The model keeps this.
- In `read_csv`, an empty row (a blank line of the csv file) raises
  IndexError at `line[0]`.
- In `plot_unstacked`, the ratio is taken only when the chosen process is not
  Wcb, because the `elif` at line 78 never stores a Wcb file as the process
  histogram.

## Left out

- ROOT I/O (`TFile.Open`, `Get`, `Clone`, `SetDirectory`, zombie checks).
  This is foreign code.
  - A file is modelled as its path, whether it opens, and its histograms' bin
    contents.
  - The `isinstance(hist, ROOT.TH1)` test is not modelled: a histogram
    is either present or missing.
  - The ValueError raised for a missing histogram is the HistogramNotFound
    error.
- Plotting, styling, legends, axis ranges and `savefig` output naming: these
  are matplotlib and mplhep calls with no bookkeeping.
- `argparse`, `glob` file discovery, `os.makedirs` (`create_output_dir`), the
  `csv` reader and `print` tracing: this is I/O plumbing. `read_csv` is
  modelled from the rows the reader yields.
- Bin edges, under- and overflow bins, and bin errors:
  - A histogram is its in-range bin contents.
  - `Integral` is their sum.
  - `Divide` propagates no errors.
- Floating point: bin contents, integrals and purities are `real`. The
  integer `--normalization` is converted to `real` before dividing, as Python
  does.
- Float formatting in f-strings: each weight carries its decimal text as
  written by Python (`0.10` prints as `0.1`).
- Histograms.Add and Histograms.Divide: what ROOT does with operands of
  different numbers of bins is not modelled. ROOT's source is not part of
  this model, and the outcome depends on its version: it may report an error
  and leave the histogram as it was, or merge the two axes. Both outcomes
  are a parameter (`Mismatch`) about which nothing is assumed. This matters
  because the sums are created with fixed binnings (100 bins at line 37, 20
  bins at lines 545-546) whatever the input histograms' binning.
- Unstacked.UnstackedBackgrounds, Unstacked.LoopBackgrounds: the bin count
  and bin contents of the sum, its per-file integral and the ZeroDivision
  case are proved only for background histograms of 100 bins. For other
  binnings only the final integral is promised.
- SchemeScore.ComparisonTotals: the bin counts, bin contents and integrals
  of the sums are proved only for score histograms of 20 bins, for the same
  reason.
- In-place updates: ROOT's `TH1::Add`, `TH1::Scale` and Python's dictionary
  updates change objects in place. The model reassigns local values (`seq`,
  `map`, datatypes) instead. The script clones every histogram it changes
  or keeps (lines 68, 76, 79, 106, 574, 597), so the values it works on are
  not shared.
- The unused `proc_name` of `compare_4F5F_vs_score` (line 562) is not
  computed. Its two keys both contain `_`, so that `split('_')[-2]` cannot
  fail. In `compare_FSs` (line 431) it is computed, and only its IndexError
  matters.
