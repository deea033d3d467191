/** `weights_and_constants` (weights_and_constants.py): the classifier weight
    sets, the event-classification selection strings of the six categories,
    built from a base cut, a signal- or control-region cut and weighted score
    comparisons, and the categories' bin edges. */
module WeightsAndConstants {
  import opened Strings

  /** A weight as it is written into a selection string and as a number.
      Python prints `0.10` as `0.1`. */
  datatype Weight = Weight(text: string, value: real)

  type WeightSet = map<string, Weight>

  /** The names of an ordered table (a dictionary, in insertion order). */
  function Names<T>(table: seq<(string, T)>): (r: seq<string>)
    ensures |r| == |table| && forall i :: 0 <= i < |table| ==> r[i] == table[i].0
  {
    seq(|table|, i requires 0 <= i < |table| => table[i].0)
  }

  /** The classes the classifier scores, in the order every comparison list
      follows. */
  const Classes := ["ttbb", "ttbj", "ttcc", "ttcj", "ttLF"]

  /** The six categories, in the order of both tables. */
  const Categories := ["score_tt_Wcb", "fscore_ttbb", "fscore_ttbj", "fscore_ttcc", "fscore_ttcj", "fscore_ttLF"]

  const BaseSelection := "score_tt_Wcb > 0.6 && score_ttLF < 0.1"
  const SignalRegionSelection := "score_tt_Wcb > 0.85"
  const ControlRegionSelection := "score_tt_Wcb < 0.85"

  datatype WeightsAndConstants = WeightsAndConstants(
    weights0p6ttWcbAnd0p05ttLF: WeightSet,
    weights0p6ttWcbAnd0p1ttLF: WeightSet,
    adhocSelection: seq<(string, string)>,
    adhocBinning: seq<(string, seq<real>)>)

  /** `w[a] * score_a > w[b] * score_b` */
  function Beats(w: WeightSet, a: string, b: string): string
    requires a in w && b in w
  {
    w[a].text + " * score_" + a + " > " + w[b].text + " * score_" + b
  }

  const Weights0p6ttWcbAnd0p05ttLF: WeightSet := map[
    "ttLF" := Weight("0.537", 0.537),
    "ttcc" := Weight("0.09", 0.09),
    "ttcj" := Weight("0.116", 0.116),
    "ttbb" := Weight("0.071", 0.071),
    "ttbj" := Weight("0.156", 0.156)]

  const Weights0p6ttWcbAnd0p1ttLF: WeightSet := map[
    "ttLF" := Weight("0.63", 0.63),
    "ttcc" := Weight("0.09", 0.09),
    "ttcj" := Weight("0.12", 0.12),
    "ttbb" := Weight("0.04", 0.04),
    "ttbj" := Weight("0.1", 0.10)]

  /** `evtClassification_weights`: the set the selections are built with. */
  const ClassificationWeights := Weights0p6ttWcbAnd0p1ttLF

  /** `adhoc_selection`, written out comparison by comparison with the
      weight set `w`. */
  function SelectionTable(w: WeightSet): seq<(string, string)>
    requires forall y :: y in Classes ==> y in w
  {
    var base := BaseSelection;
    var sr := SignalRegionSelection;
    var cr := ControlRegionSelection;
    [
      ("score_tt_Wcb", base + " && " + sr),
      ("fscore_ttbb", base + " && " + cr + " && " + Beats(w, "ttbb", "ttbj") + " && " + Beats(w, "ttbb", "ttcc") +
                      " && " + Beats(w, "ttbb", "ttcj") + " && " + Beats(w, "ttbb", "ttLF")),
      ("fscore_ttbj", base + " && " + cr + " && " + Beats(w, "ttbj", "ttbb") + " && " + Beats(w, "ttbj", "ttcc") +
                      " && " + Beats(w, "ttbj", "ttcj") + " && " + Beats(w, "ttbj", "ttLF")),
      ("fscore_ttcc", base + " && " + cr + " && " + Beats(w, "ttcc", "ttbb") + " && " + Beats(w, "ttcc", "ttbj") +
                      " && " + Beats(w, "ttcc", "ttcj") + " && " + Beats(w, "ttcc", "ttLF")),
      ("fscore_ttcj", base + " && " + cr + " && " + Beats(w, "ttcj", "ttbb") + " && " + Beats(w, "ttcj", "ttbj") +
                      " && " + Beats(w, "ttcj", "ttcc") + " && " + Beats(w, "ttcj", "ttLF")),
      ("fscore_ttLF", base + " && " + cr + " && " + Beats(w, "ttLF", "ttbb") + " && " + Beats(w, "ttLF", "ttbj") +
                      " && " + Beats(w, "ttLF", "ttcc") + " && " + Beats(w, "ttLF", "ttcj"))]
  }

  /** `adhoc_binning` */
  const BinningTable: seq<(string, seq<real>)> := [
    ("score_tt_Wcb", [0.0, 0.9, 1.0]),
    ("fscore_ttbb", [0.0, 0.7, 1.0]),
    ("fscore_ttbj", [0.0, 0.45, 1.0]),
    ("fscore_ttcc", [0.0, 0.45, 1.0]),
    ("fscore_ttcj", [0.0, 0.35, 1.0]),
    ("fscore_ttLF", [0.0, 0.1, 1.0])]

  /** The constructor: every field assigned once. */
  function Init(): WeightsAndConstants {
    WeightsAndConstants(Weights0p6ttWcbAnd0p05ttLF, Weights0p6ttWcbAnd0p1ttLF,
      SelectionTable(ClassificationWeights), BinningTable)
  }

  /** `_wc_instance`; the module-level `adhoc_selection` and `adhoc_binning`
      are its fields. */
  const Instance := Init()
  const AdhocSelection := Instance.adhocSelection
  const AdhocBinning := Instance.adhocBinning

  /** The weight set the selections are built with. */
  function ActiveWeights(): (w: WeightSet)
    ensures w == Instance.weights0p6ttWcbAnd0p1ttLF
  {
    ClassificationWeights
  }

  // ---------------------------------------------------------------------
  // The rule the selection strings follow

  /** The other classes, in the canonical order. */
  function Others(x: string): (r: seq<string>)
    ensures forall y :: y in r <==> y in Classes && y != x
  {
    SeqWithout(Classes, x)
  }

  function SeqWithout(s: seq<string>, x: string): (r: seq<string>)
    ensures forall y :: y in r <==> y in s && y != x
    ensures x !in s ==> r == s
    ensures x in s && NoRepeats(s) ==> |r| == |s| - 1
    decreases |s|
  {
    if s == [] then []
    else if s[0] == x then SeqWithout(s[1..], x)
    else [s[0]] + SeqWithout(s[1..], x)
  }

  ghost predicate NoRepeats(s: seq<string>) {
    forall i, j :: 0 <= i < j < |s| ==> s[i] != s[j]
  }

  function Comparisons(w: WeightSet, x: string, ys: seq<string>): (r: seq<string>)
    requires x in w && forall y :: y in ys ==> y in w
    ensures |r| == |ys| && forall i :: 0 <= i < |ys| ==> r[i] == Beats(w, x, ys[i])
  {
    seq(|ys|, i requires 0 <= i < |ys| => Beats(w, x, ys[i]))
  }

  /** The selection of category `fscore_x`: the base cut, the control-region
      cut, then `x` beating each other class. */
  function FscoreSelection(w: WeightSet, x: string): string
    requires x in w && forall y :: y in Classes ==> y in w
  {
    Join([BaseSelection, ControlRegionSelection] + Comparisons(w, x, Others(x)), " && ")
  }

  /** Every weight set holds a weight for each class. */
  lemma WeightSetsCoverClasses()
    ensures forall y :: y in Classes ==> y in Instance.weights0p6ttWcbAnd0p05ttLF && y in ActiveWeights()
  {
  }

  // ---------------------------------------------------------------------
  // What the tables hold

  /** The selections are built with the 0.1 ttLF weight set: ttLF 0.63,
      ttcc 0.09, ttcj 0.12, ttbb 0.04, ttbj 0.1. */
  lemma ActiveWeightValues()
    ensures ActiveWeights().Keys == {"ttLF", "ttcc", "ttcj", "ttbb", "ttbj"}
    ensures ActiveWeights()["ttLF"] == Weight("0.63", 0.63)
    ensures ActiveWeights()["ttcc"] == Weight("0.09", 0.09)
    ensures ActiveWeights()["ttcj"] == Weight("0.12", 0.12)
    ensures ActiveWeights()["ttbb"] == Weight("0.04", 0.04)
    ensures ActiveWeights()["ttbj"] == Weight("0.1", 0.1)
  {
  }

  /** The tt_Wcb selection comes first: the base cut and the signal-region
      cut. */
  lemma SignalSelection()
    ensures |AdhocSelection| == 6
    ensures AdhocSelection[0] == ("score_tt_Wcb", Join([BaseSelection, SignalRegionSelection], " && "))
  {
  }

  /** Then one selection per class, in the class order, each following the
      rule. */
  lemma FscoreFollowsRule(i: int)
    requires 0 <= i < |Classes|
    ensures |AdhocSelection| == 6
    ensures AdhocSelection[i + 1].0 == "fscore_" + Classes[i]
    ensures AdhocSelection[i + 1].1 == FscoreSelection(ActiveWeights(), Classes[i])
  {
    assert AdhocSelection == SelectionTable(ActiveWeights());
    TableFollowsRule(ActiveWeights(), i);
  }

  /** The same for a table built with any weight set of the classes. */
  lemma TableFollowsRule(w: WeightSet, i: int)
    requires forall y :: y in Classes ==> y in w
    requires 0 <= i < |Classes|
    ensures |SelectionTable(w)| == 6
    ensures SelectionTable(w)[i + 1].0 == "fscore_" + Classes[i]
    ensures SelectionTable(w)[i + 1].1 == FscoreSelection(w, Classes[i])
  {
    RowAsWritten(w, i);
    OthersAt(i);
    SpelledFollowsRule(w, Classes[i], Others(Classes[i]));
  }

  /** Row `i + 1` of the table spells out the comparisons of class `i` with
      the classes before it and the classes after it. */
  lemma RowAsWritten(w: WeightSet, i: int)
    requires forall y :: y in Classes ==> y in w
    requires 0 <= i < |Classes|
    ensures |SelectionTable(w)| == 6
    ensures SelectionTable(w)[i + 1] == ("fscore_" + Classes[i], Spelled(w, Classes[i], Classes[..i] + Classes[i + 1..]))
  {
    var t := SelectionTable(w);
    if i == 0 {
      assert Classes[..0] + Classes[1..] == Classes[1..] == ["ttbj", "ttcc", "ttcj", "ttLF"];
      assert Classes[0] == "ttbb" && "fscore_" + Classes[0] == "fscore_ttbb";
      assert t[1] == ("fscore_ttbb", Spelled(w, "ttbb", ["ttbj", "ttcc", "ttcj", "ttLF"]));
    } else if i == 1 {
      assert Classes[1] == "ttbj" && "fscore_" + Classes[1] == "fscore_ttbj";
      assert Classes[..1] + Classes[2..] == ["ttbb", "ttcc", "ttcj", "ttLF"];
      assert t[2] == ("fscore_ttbj", Spelled(w, "ttbj", ["ttbb", "ttcc", "ttcj", "ttLF"]));
    } else if i == 2 {
      assert Classes[2] == "ttcc" && "fscore_" + Classes[2] == "fscore_ttcc";
      assert Classes[..2] + Classes[3..] == ["ttbb", "ttbj", "ttcj", "ttLF"];
      assert t[3] == ("fscore_ttcc", Spelled(w, "ttcc", ["ttbb", "ttbj", "ttcj", "ttLF"]));
    } else if i == 3 {
      assert Classes[3] == "ttcj" && "fscore_" + Classes[3] == "fscore_ttcj";
      assert Classes[..3] + Classes[4..] == ["ttbb", "ttbj", "ttcc", "ttLF"];
      assert t[4] == ("fscore_ttcj", Spelled(w, "ttcj", ["ttbb", "ttbj", "ttcc", "ttLF"]));
    } else {
      assert Classes[4] == "ttLF" && "fscore_" + Classes[4] == "fscore_ttLF";
      assert Classes[..4] + Classes[5..] == ["ttbb", "ttbj", "ttcc", "ttcj"];
      assert t[5] == ("fscore_ttLF", Spelled(w, "ttLF", ["ttbb", "ttbj", "ttcc", "ttcj"]));
    }
  }

  /** The other classes of a class: those before it and those after it. */
  lemma OthersAt(i: int)
    requires 0 <= i < |Classes|
    ensures Others(Classes[i]) == Classes[..i] + Classes[i + 1..]
  {
    ClassesAreDistinct();
    WithoutAt(Classes, i);
  }

  /** A selection as the constructor spells it out. */
  function Spelled(w: WeightSet, x: string, ys: seq<string>): string
    requires x in w && |ys| == 4 && forall y :: y in ys ==> y in w
  {
    BaseSelection + " && " + ControlRegionSelection + " && " + Beats(w, x, ys[0]) + " && " + Beats(w, x, ys[1]) +
    " && " + Beats(w, x, ys[2]) + " && " + Beats(w, x, ys[3])
  }

  lemma ClassesAreDistinct()
    ensures NoRepeats(Classes)
  {
  }

  /** Leaving out the class at a position of a list without repeats leaves
      the classes before it and the classes after it. */
  lemma {:induction false} WithoutAt(s: seq<string>, i: int)
    requires 0 <= i < |s| && NoRepeats(s)
    ensures SeqWithout(s, s[i]) == s[..i] + s[i + 1..]
    decreases |s|
  {
    if i == 0 {
      assert s[0] !in s[1..];
      assert s[..0] + s[1..] == s[1..];
    } else {
      assert s[1..][i - 1] == s[i];
      WithoutAt(s[1..], i - 1);
      assert s[1..][..i - 1] + s[1..][i..] == s[1..i] + s[i + 1..];
      assert [s[0]] + (s[1..i] + s[i + 1..]) == s[..i] + s[i + 1..];
    }
  }

  lemma SpelledFollowsRule(w: WeightSet, x: string, ys: seq<string>)
    requires x in w && |ys| == 4 && forall y :: y in ys ==> y in w
    ensures Spelled(w, x, ys) == Join([BaseSelection, ControlRegionSelection] + Comparisons(w, x, ys), " && ")
  {
    FollowsRule(w, x, Spelled(w, x, ys), ys, BaseSelection, ControlRegionSelection);
  }

  lemma FollowsRule(w: WeightSet, x: string, sel: string, others: seq<string>, base: string, cr: string)
    requires x in w
    requires |others| == 4 && forall y :: y in others ==> y in w
    requires sel ==
      base + " && " + cr + " && " + Beats(w, x, others[0]) +
      " && " + Beats(w, x, others[1]) + " && " + Beats(w, x, others[2]) +
      " && " + Beats(w, x, others[3])
    ensures sel == Join([base, cr] + Comparisons(w, x, others), " && ")
  {
    JoinSix(base, cr, Beats(w, x, others[0]), Beats(w, x, others[1]),
      Beats(w, x, others[2]), Beats(w, x, others[3]), [base, cr] + Comparisons(w, x, others));
  }

  lemma JoinSix(a: string, b: string, c: string, d: string, e: string, f: string, parts: seq<string>)
    requires parts == [a, b, c, d, e, f]
    ensures Join(parts, " && ") == a + " && " + b + " && " + c + " && " + d + " && " + e + " && " + f
  {
    var sep := " && ";
    assert parts[1..] == [b, c, d, e, f] && parts[2..] == [c, d, e, f] && parts[3..] == [d, e, f];
    assert parts[4..] == [e, f] && parts[5..] == [f];
    assert Join(parts[5..], sep) == f;
    assert Join(parts[4..], sep) == e + sep + f;
    assert Join(parts[3..], sep) == d + sep + (e + sep + f);
    assert Join(parts[2..], sep) == c + sep + (d + sep + (e + sep + f));
    assert Join(parts[1..], sep) == b + sep + (c + sep + (d + sep + (e + sep + f)));
  }

  // ---------------------------------------------------------------------
  // What the selections mean

  /** Every category of a class compares it with exactly four classes, each
      other class once, never itself. */
  lemma ComparisonsAreTheOtherClasses(x: string)
    requires x in Classes
    ensures |Others(x)| == 4 && x !in Others(x)
    ensures forall y :: y in Classes && y != x ==> y in Others(x)
  {
    assert NoRepeats(Classes);
  }

  /** The signal and control regions cut the same score at the same
      threshold with opposite strict inequalities. */
  const Threshold := "0.85"

  predicate InSignalRegion(scoreTtWcb: real) { scoreTtWcb > 0.85 }
  predicate InControlRegion(scoreTtWcb: real) { scoreTtWcb < 0.85 }

  /** No score is in both regions; every score but the threshold itself is in
      one of them. */
  lemma RegionsAreExclusive(scoreTtWcb: real)
    ensures SignalRegionSelection == "score_tt_Wcb > " + Threshold
    ensures ControlRegionSelection == "score_tt_Wcb < " + Threshold
    ensures !(InSignalRegion(scoreTtWcb) && InControlRegion(scoreTtWcb))
    ensures scoreTtWcb != 0.85 <==> InSignalRegion(scoreTtWcb) || InControlRegion(scoreTtWcb)
  {
  }

  /** The comparisons of `fscore_x` hold for some scores: `x`'s weighted
      score beats every other class's. */
  ghost predicate WinsComparisons(w: WeightSet, x: string, scores: map<string, real>)
    requires x in w && forall y :: y in Classes ==> y in w
  {
    x in scores &&
    forall y :: y in Others(x) ==> y in scores && w[x].value * scores[x] > w[y].value * scores[y]
  }

  /** So no event passes the comparisons of two different classes: the
      fscore categories are disjoint. */
  lemma FscoreCategoriesAreDisjoint(w: WeightSet, x: string, y: string, scores: map<string, real>)
    requires x in Classes && y in Classes && x != y
    requires forall c :: c in Classes ==> c in w
    ensures !(WinsComparisons(w, x, scores) && WinsComparisons(w, y, scores))
  {
  }

  /** Both tables cover the same six categories; every binning has three
      edges, from 0 to 1, strictly increasing. */
  lemma BinningShape()
    ensures Names(AdhocSelection) == Names(AdhocBinning) == Categories
    ensures forall i :: 0 <= i < |AdhocBinning| ==>
      var b := AdhocBinning[i].1;
      |b| == 3 && b[0] == 0.0 && b[2] == 1.0 && b[0] < b[1] < b[2]
  {
  }

  /** The two weight sets weigh the same five classes. */
  lemma WeightSetsShareClasses()
    ensures Instance.weights0p6ttWcbAnd0p05ttLF.Keys == ActiveWeights().Keys
    ensures forall y :: y in ActiveWeights() <==> y in Classes
  {
  }
}
