/** `read_csv` (plotUnstacked.py, lines 175-189) once the csv reader has
    produced its rows: the first field of every row but the header, each
    prefixed with `h_`. */
module CsvRows {
  import opened Results

  const Header := "Variable"

  /** `[line[0] for line in csv_reader if not line[0] == 'Variable']`: the
      test reads `line[0]` of every row, so an empty row (a blank line of the
      file) raises IndexError. */
  function VariableNames(rows: seq<seq<string>>): (r: Result<seq<string>>)
    ensures r.Err? <==> exists i :: 0 <= i < |rows| && |rows[i]| == 0
    ensures r.Err? ==> r.error == IndexError
    ensures r.Ok? ==> |r.value| <= |rows| && Header !in r.value
    ensures r.Ok? ==> forall n :: n in r.value <==> exists i :: 0 <= i < |rows| && rows[i][0] == n && n != Header
    decreases |rows|
  {
    if rows == [] then Ok([])
    else if |rows[0]| == 0 then Err(IndexError)
    else
      match VariableNames(rows[1..])
      case Err(e) => Err(e)
      case Ok(rest) => Ok(if rows[0][0] == Header then rest else [rows[0][0]] + rest)
  }

  /** `[f"h_{hist}" for hist in hist_list]` */
  function Prefixed(names: seq<string>): (r: seq<string>)
    ensures |r| == |names|
    ensures forall i :: 0 <= i < |names| ==>
      |r[i]| == |names[i]| + 2 && r[i][..2] == "h_" && r[i][2..] == names[i]
  {
    seq(|names|, i requires 0 <= i < |names| => "h_" + names[i])
  }

  function HistogramNames(rows: seq<seq<string>>): Result<seq<string>> {
    match VariableNames(rows)
    case Err(e) => Err(e)
    case Ok(names) => Ok(Prefixed(names))
  }

  /** The names keep the order of the rows: reading two blocks of rows is
      reading each and concatenating. */
  lemma {:induction false} VariableNamesOfAppend(a: seq<seq<string>>, b: seq<seq<string>>)
    requires VariableNames(a).Ok? && VariableNames(b).Ok?
    ensures VariableNames(a + b) == Ok(VariableNames(a).value + VariableNames(b).value)
    decreases |a|
  {
    if a == [] {
      var vb := VariableNames(b).value;
      assert a + b == b && VariableNames(a).value == [];
      assert VariableNames(a).value + vb == vb;
    } else {
      assert (a + b)[0] == a[0] && (a + b)[1..] == a[1..] + b;
      VariableNamesOfAppend(a[1..], b);
      var rest := VariableNames(a[1..]).value;
      if a[0][0] != Header {
        assert [a[0][0]] + rest + VariableNames(b).value == [a[0][0]] + (rest + VariableNames(b).value);
      }
    }
  }

  /** The histogram names are the variable names with `h_` in front, and
      stripping the prefix gives the variables back. */
  lemma HistogramNamesRoundTrip(rows: seq<seq<string>>)
    ensures HistogramNames(rows).Err? <==> VariableNames(rows).Err?
    ensures HistogramNames(rows).Ok? ==>
      var names := VariableNames(rows).value;
      var hs := HistogramNames(rows).value;
      |hs| == |names| && forall i :: 0 <= i < |hs| ==> hs[i] == "h_" + names[i] && hs[i][2..] == names[i]
  {
  }
}
