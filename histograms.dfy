/** The faults that abort a report. Each one is raised by the script (or by
    Python itself) and ends the run; none is caught. */
module Results {

  datatype Error =
    | FileNotFound(path: string)                // TFile.Open gave nothing or a zombie
    | HistogramNotFound(name: string, path: string)
    | ZeroDivision                              // normalization / Integral() with Integral() == 0
    | IndexError                                // a list index out of range
    | KeyError(key: string)                     // a dictionary lookup of a missing key

  datatype Result<T> = Ok(value: T) | Err(error: Error)

  datatype Option<T> = None | Some(value: T)
}

/** One-dimensional histograms reduced to what the bookkeeping uses: the
    in-range bin contents, in bin order. Bin edges, under- and overflow and
    per-bin errors are not modelled. */
module Histograms {
  import opened Results

  type Hist = seq<real>

  /** A histogram file: its path, whether it opens, and the histograms it
      holds by name. */
  datatype RootFile = RootFile(path: string, opens: bool, contents: map<string, Hist>)

  /** `root_file.Get(name)`; a missing object is a fault at the caller. */
  function Get(f: RootFile, name: string): (r: Result<Hist>)
    ensures r.Ok? <==> name in f.contents
    ensures r.Ok? ==> r.value == f.contents[name]
    ensures r.Err? ==> r.error == HistogramNotFound(name, f.path)
  {
    if name in f.contents then Ok(f.contents[name]) else Err(HistogramNotFound(name, f.path))
  }

  /** `TH1::Integral()`: the sum of the in-range bin contents. */
  function Integral(h: Hist): real {
    if h == [] then 0.0 else h[0] + Integral(h[1..])
  }

  ghost predicate NonNegative(h: Hist) {
    forall i :: 0 <= i < |h| ==> h[i] >= 0.0
  }

  /** A histogram with `n` empty bins, as `ROOT.TH1D(name, title, n, lo, hi)`. */
  function Zeros(n: nat): (h: Hist)
    ensures |h| == n && forall i :: 0 <= i < n ==> h[i] == 0.0
  {
    seq(n, i => 0.0)
  }

  lemma {:induction false} IntegralOfZeros(n: nat)
    ensures Integral(Zeros(n)) == 0.0
  {
    if n > 0 {
      IntegralOfZeros(n - 1);
      assert Zeros(n)[1..] == Zeros(n - 1);
    }
  }

  lemma {:induction false} IntegralNonNegative(h: Hist)
    requires NonNegative(h)
    ensures Integral(h) >= 0.0
  {
    if h != [] {
      IntegralNonNegative(h[1..]);
    }
  }

  /** `TH1::Scale(k)` on the bin contents. */
  function Scale(h: Hist, k: real): (r: Hist)
    ensures |r| == |h| && forall i :: 0 <= i < |h| ==> r[i] == k * h[i]
  {
    if h == [] then [] else [k * h[0]] + Scale(h[1..], k)
  }

  lemma {:induction false} IntegralOfScale(h: Hist, k: real)
    ensures Integral(Scale(h, k)) == k * Integral(h)
  {
    if h != [] {
      IntegralOfScale(h[1..], k);
      assert Scale(h, k)[1..] == Scale(h[1..], k);
    }
  }

  /** `h.Scale(target / h.Integral())`: Python raises ZeroDivisionError
      before anything is scaled when the integral is zero. */
  function Normalize(h: Hist, target: real): Result<Hist> {
    var total := Integral(h);
    if total == 0.0 then Err(ZeroDivision) else Ok(Scale(h, target / total))
  }

  /** Normalizing fails exactly on an empty integral; otherwise it keeps the
      binning and brings the integral to the target. */
  lemma NormalizeMeetsTarget(h: Hist, target: real)
    ensures Normalize(h, target).Err? <==> Integral(h) == 0.0
    ensures Normalize(h, target).Err? ==> Normalize(h, target).error == ZeroDivision
    ensures Normalize(h, target).Ok? ==>
      |Normalize(h, target).value| == |h| && Integral(Normalize(h, target).value) == target
  {
    if Integral(h) != 0.0 {
      IntegralOfScale(h, target / Integral(h));
    }
  }

  /** Normalizing twice to the same non-zero target is normalizing once. */
  lemma NormalizeIdempotent(h: Hist, target: real)
    requires target != 0.0 && Normalize(h, target).Ok?
    ensures Normalize(Normalize(h, target).value, target) == Normalize(h, target)
  {
    var g := Normalize(h, target).value;
    NormalizeMeetsTarget(h, target);
    assert Integral(g) == target && target / target == 1.0;
    ScaleByOne(g);
  }

  lemma ScaleByOne(h: Hist)
    ensures Scale(h, 1.0) == h
  {
  }

  /** What ROOT does when `TH1::Add` or `TH1::Divide` is handed a histogram
      with another number of bins. That is decided inside ROOT, whose source
      is not part of this model (depending on the version it reports an error
      and leaves the histogram as it was, or merges the two axes), so the
      model takes both outcomes as parameters and assumes nothing about them. */
  datatype Mismatch = Mismatch(add: (Hist, Hist) -> Hist, divide: (Hist, Hist) -> Hist)

  /** `TH1::Add(h)`: bin-wise addition of equally binned histograms. */
  function Add(total: Hist, h: Hist, m: Mismatch): (r: Hist)
    ensures |h| == |total| ==> |r| == |total|
  {
    if |h| != |total| then m.add(total, h) else seq(|total|, i requires 0 <= i < |total| => total[i] + h[i])
  }

  /** Adding an equally binned histogram adds its integral. */
  lemma {:induction false} IntegralOfAdd(total: Hist, h: Hist, m: Mismatch)
    requires |h| == |total|
    ensures Integral(Add(total, h, m)) == Integral(total) + Integral(h)
    decreases |total|
  {
    if total != [] {
      IntegralOfAdd(total[1..], h[1..], m);
      assert Add(total, h, m)[1..] == Add(total[1..], h[1..], m);
    }
  }

  /** Accumulation in any order gives the same totals. */
  lemma AddCommutes(a: Hist, b: Hist, m: Mismatch)
    requires |a| == |b|
    ensures Add(a, b, m) == Add(b, a, m)
  {
  }

  lemma AddAssociates(a: Hist, b: Hist, c: Hist, m: Mismatch)
    requires |a| == |b| == |c|
    ensures Add(Add(a, b, m), c, m) == Add(a, Add(b, c, m), m)
  {
  }

  /** `TH1::Divide(b)` on the bin contents of equally binned histograms: a
      bin whose divisor is zero becomes zero. */
  function Divide(a: Hist, b: Hist, m: Mismatch): (r: Hist)
    ensures |b| == |a| ==> |r| == |a|
  {
    if |a| != |b| then m.divide(a, b)
    else seq(|a|, i requires 0 <= i < |a| => if b[i] == 0.0 then 0.0 else a[i] / b[i])
  }

  /** A histogram divided by itself is one in every filled bin and zero in
      every empty one. */
  lemma DivideBySelf(a: Hist, m: Mismatch)
    ensures forall i :: 0 <= i < |a| ==> Divide(a, a, m)[i] == if a[i] == 0.0 then 0.0 else 1.0
  {
  }
}
