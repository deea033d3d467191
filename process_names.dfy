/** How `plot_unstacked` turns a file name into a process label and decides,
    from that label, where the file's histogram goes (plotUnstacked.py,
    lines 42-86). */
module ProcessNames {
  import opened Strings
  import opened Results

  /** `process_name_beautifier`, in its insertion order (Python dictionaries
      iterate in that order). */
  const Beautifier: seq<(string, string)> :=
    [("Wcb", "Wcb"), ("ttLF", "tt+LF"), ("ttbb", "tt+bb"),
     ("ttbj", "tt+bj"), ("ttcc", "tt+cc"), ("ttcj", "tt+cj")]

  /** The basename with every `.root` and then every `h_` deleted. */
  function CleanName(path: string): string {
    ReplaceAll(ReplaceAll(Basename(path), ".root", ""), "h_", "")
  }

  /** The label of the first key of `table` that occurs in `name`, or `name`
      itself when none does. */
  function FirstMatch(table: seq<(string, string)>, name: string): string {
    if table == [] then name
    else if Contains(name, table[0].0) then table[0].1
    else FirstMatch(table[1..], name)
  }

  /** The label `plot_unstacked` gives the file at `path`. */
  function ResolveProcessName(path: string): string {
    FirstMatch(Beautifier, CleanName(path))
  }

  /** The first key that occurs wins, whatever later keys also occur. */
  lemma {:induction false} FirstMatchWins(table: seq<(string, string)>, name: string, i: int)
    requires 0 <= i < |table| && Contains(name, table[i].0)
    requires forall j :: 0 <= j < i ==> !Contains(name, table[j].0)
    ensures FirstMatch(table, name) == table[i].1
  {
    if i > 0 {
      assert !Contains(name, table[0].0);
      FirstMatchWins(table[1..], name, i - 1);
    }
  }

  /** With no key occurring, the name is kept unchanged. */
  lemma {:induction false} NoMatchKeepsName(table: seq<(string, string)>, name: string)
    requires forall j :: 0 <= j < |table| ==> !Contains(name, table[j].0)
    ensures FirstMatch(table, name) == name
  {
    if table != [] {
      assert !Contains(name, table[0].0);
      NoMatchKeepsName(table[1..], name);
    }
  }

  /** The resolver in the script's terms: clean the basename, then the first
      key of the table in its order that occurs gives the label, and with
      none the cleaned name stands. */
  lemma ResolveProcessNameSpec(path: string)
    ensures forall i :: 0 <= i < |Beautifier| && Contains(CleanName(path), Beautifier[i].0) &&
              (forall j :: 0 <= j < i ==> !Contains(CleanName(path), Beautifier[j].0))
              ==> ResolveProcessName(path) == Beautifier[i].1
    ensures (forall j :: 0 <= j < |Beautifier| ==> !Contains(CleanName(path), Beautifier[j].0))
              ==> ResolveProcessName(path) == CleanName(path)
  {
    var name := CleanName(path);
    forall i | 0 <= i < |Beautifier| && Contains(name, Beautifier[i].0) &&
               (forall j :: 0 <= j < i ==> !Contains(name, Beautifier[j].0))
      ensures ResolveProcessName(path) == Beautifier[i].1
    {
      FirstMatchWins(Beautifier, name, i);
    }
    if forall j :: 0 <= j < |Beautifier| ==> !Contains(name, Beautifier[j].0) {
      NoMatchKeepsName(Beautifier, name);
    }
  }

  /** `process_name_beautifier[key]`: a key that is not in the table raises
      KeyError. */
  function Lookup(table: seq<(string, string)>, key: string): (r: Result<string>)
    ensures r.Err? ==> r.error == KeyError(key)
  {
    if table == [] then Err(KeyError(key))
    else if table[0].0 == key then Ok(table[0].1)
    else Lookup(table[1..], key)
  }

  /** The lookup finds a label exactly for the keys of the table, and then the
      label of the first entry with that key. */
  lemma {:induction false} LookupFindsKey(table: seq<(string, string)>, key: string)
    ensures Lookup(table, key).Ok? <==> exists i :: 0 <= i < |table| && table[i].0 == key
    ensures forall i :: (0 <= i < |table| && table[i].0 == key &&
              (forall j :: 0 <= j < i ==> table[j].0 != key)) ==> Lookup(table, key) == Ok(table[i].1)
  {
    if table != [] {
      LookupFindsKey(table[1..], key);
      if table[0].0 != key {
        forall i | 0 <= i < |table| && table[i].0 == key
          ensures 0 <= i - 1 < |table[1..]| && table[1..][i - 1].0 == key
        {
        }
        forall i | 1 <= i < |table| && table[1..][i - 1].0 == key
          ensures table[i].0 == key
        {
        }
      }
    }
  }

  /** The label chosen with `--process` (line 43). */
  function ProcessLabel(process: string): Result<string> {
    Lookup(Beautifier, process)
  }

  /** A file's histogram joins the sum of backgrounds (line 82). */
  predicate InSumOfBackgrounds(name: string) {
    !Contains(name, "Wcb") && !Contains(name, "Data")
  }

  /** A file's histogram is drawn in the overlay (line 85). */
  predicate IsDrawn(name: string, process: string) {
    Contains(name, "Wcb") || Contains(name, process)
  }

  /** A label never both joins the backgrounds and is drawn as the signal:
      a label containing "Wcb" is always drawn and never summed, one
      containing "Data" is never summed. */
  lemma SignalIsNeverBackground(name: string, process: string)
    ensures Contains(name, "Wcb") ==> IsDrawn(name, process) && !InSumOfBackgrounds(name)
    ensures Contains(name, "Data") ==> !InSumOfBackgrounds(name)
    ensures InSumOfBackgrounds(name) ==> (IsDrawn(name, process) <==> Contains(name, process))
  {
  }

  /** Example: a tt+bb sample file resolves to tt+bb. */
  lemma ResolveTtbbExample(path: string)
    requires path == "h_ttbb-withDPS.root"
    ensures ResolveProcessName(path) == "tt+bb"
  {
    CleanExample(path, "ttbb-withDPS");
    TtbbSampleMatches(CleanName(path));
  }

  lemma TtbbSampleMatches(n: string)
    requires n == "ttbb-withDPS"
    ensures FirstMatch(Beautifier, n) == "tt+bb"
  {
    MissingChar(n, "Wcb", 0);
    MissingChar(n, "ttLF", 2);
    assert n[..4] == "ttbb";
    assert Contains(n, Beautifier[2].0);
    FirstMatchWins(Beautifier, n, 2);
  }

  /** Example: the data file matches no key and keeps its cleaned name. */
  lemma ResolveDataExample(path: string)
    requires path == "h_Data.root"
    ensures ResolveProcessName(path) == "Data"
  {
    var d := "Data";
    CleanExample(path, d);
    MissingChar(d, "Wcb", 0);
    MissingChar(d, "ttLF", 2);
    MissingChar(d, "ttbb", 2);
    MissingChar(d, "ttbj", 2);
    MissingChar(d, "ttcc", 2);
    MissingChar(d, "ttcj", 2);
    NoMatchKeepsName(Beautifier, d);
  }

  /** Cleaning `h_<stem>.root`, for a stem without `/`, `.`, `_`, gives the
      stem. */
  lemma CleanExample(path: string, stem: string)
    requires path == "h_" + stem + ".root"
    requires '/' !in stem && '.' !in stem && '_' !in stem
    ensures CleanName(path) == stem
  {
    assert '/' !in path;
    BasenameIsSuffix(path);
    var noExt := "h_" + stem;
    assert path == noExt + ".root";
    assert '.' !in noExt;
    ReplacePassesPrefix(noExt, ".root", ".root", "");
    assert ReplaceAll(".root", ".root", "") == "";
    assert noExt + "" == noExt;
    assert noExt[..2] == "h_" && noExt[2..] == stem;
    MissingChar(stem, "h_", 1);
    ReplaceAbsent(stem, "h_", "");
  }
}
