/** The command line's first argument: the mode table, the rule that any
    unique prefix of a mode abbreviates it, and the check on the number of
    arguments the mode accepts. */
module Cli {
  import opened Results
  import opened Text

  /** One entry of the mode table: the mode and the argument counts it
      accepts. */
  datatype ModeSpec = ModeSpec(name: string, counts: seq<nat>)

  /** The table, in its declaration order (the order the abbreviation loop
      visits it in). */
  const Modes: seq<ModeSpec> := [
    ModeSpec("new", [1]),
    ModeSpec("edit", [1]),
    ModeSpec("run", [1]),
    ModeSpec("ls", [0]),
    ModeSpec("diff", [2]),
    ModeSpec("mv", [2]),
    ModeSpec("kill", [1]),
    ModeSpec("view", [1]),
    ModeSpec("cp", [2]),
    ModeSpec("del", [1]),
    ModeSpec("file", [1])]

  /** Why the command line is rejected before any mode runs. */
  datatype CliError =
    | Ambiguous(mode: string, first: string, second: string)
    | UnknownMode(mode: string)
    | BadArgCount(mode: string, count: nat)

  function ModeNames(table: seq<ModeSpec>): (names: seq<string>)
    ensures |names| == |table|
    ensures forall i :: 0 <= i < |table| ==> names[i] == table[i].name
  {
    seq(|table|, i requires 0 <= i < |table| => table[i].name)
  }

  /** The abbreviation loop from index `i` on, with the match `full` found
      so far: the second match stops it with both names. */
  function Scan(names: seq<string>, m: string, i: nat, full: Option<string>): (r: Result<Option<string>, CliError>)
    requires i <= |names|
    ensures full.None? ==> r == match |StartingWithFrom(names, m, i)|
      case 0 => Ok(None)
      case 1 => Ok(Some(StartingWithFrom(names, m, i)[0]))
      case _ => Err(Ambiguous(m, StartingWithFrom(names, m, i)[0], StartingWithFrom(names, m, i)[1]))
    ensures full.Some? ==> r == if |StartingWithFrom(names, m, i)| == 0 then Ok(full)
                               else Err(Ambiguous(m, full.value, StartingWithFrom(names, m, i)[0]))
    decreases |names| - i
  {
    if i == |names| then Ok(full)
    else if m <= names[i] then
      if full.Some? then Err(Ambiguous(m, full.value, names[i]))
      else Scan(names, m, i + 1, Some(names[i]))
    else Scan(names, m, i + 1, full)
  }

  /** A mode given in full is taken as it is; otherwise the mode is the one
      entry that starts with it. No entry is an unknown mode, two or more
      are ambiguous, naming the first two in table order. */
  function ResolveMode(names: seq<string>, m: string): (r: Result<string, CliError>)
    ensures m in names ==> r == Ok(m)
    ensures r.Ok? ==> r.value in names && m <= r.value
    ensures m !in names ==> (r.Ok? <==> |StartingWith(names, m)| == 1)
    ensures m !in names && r.Ok? ==> forall x | x in names && m <= x :: x == r.value
    ensures m !in names && |StartingWith(names, m)| == 0 ==> r == Err(UnknownMode(m))
    ensures m !in names && |StartingWith(names, m)| >= 2 ==>
              r == Err(Ambiguous(m, StartingWith(names, m)[0], StartingWith(names, m)[1]))
  {
    if m in names then Ok(m)
    else
      var full :- Scan(names, m, 0, None);
      if full.None? then Err(UnknownMode(m))
      else
        OnlyStartingWith(names, m);
        Ok(full.value)
  }

  /** The argument counts of the first entry named `mode` from index `i`
      on (the table's names are distinct, as the keys of a dict), and none
      when there is no such entry. */
  function CountsFrom(table: seq<ModeSpec>, mode: string, i: nat): (counts: seq<nat>)
    requires i <= |table|
    ensures mode in ModeNames(table)[i..] ==>
              exists j :: i <= j < |table| && table[j].name == mode && table[j].counts == counts
    ensures mode !in ModeNames(table)[i..] ==> counts == []
    decreases |table| - i
  {
    if i == |table| then []
    else if table[i].name == mode then table[i].counts
    else
      assert ModeNames(table)[i..] == [table[i].name] + ModeNames(table)[i + 1..];
      CountsFrom(table, mode, i + 1)
  }

  /** `modes[mode]`. */
  function CountsOf(table: seq<ModeSpec>, mode: string): (counts: seq<nat>)
    ensures mode in ModeNames(table) ==>
              exists j :: 0 <= j < |table| && table[j].name == mode && table[j].counts == counts
  {
    assert ModeNames(table)[0..] == ModeNames(table);
    CountsFrom(table, mode, 0)
  }

  /** The mode the command line runs: its first argument resolved, then
      the number of remaining arguments checked against what that mode
      accepts. */
  function ResolveCommand(table: seq<ModeSpec>, m: string, nargs: nat): (r: Result<string, CliError>)
    ensures r.Ok? <==> ResolveMode(ModeNames(table), m).Ok? && nargs in CountsOf(table, ResolveMode(ModeNames(table), m).value)
    ensures r.Ok? ==> r == ResolveMode(ModeNames(table), m)
    ensures ResolveMode(ModeNames(table), m).Err? ==> r == ResolveMode(ModeNames(table), m)
    ensures ResolveMode(ModeNames(table), m).Ok? && r.Err? ==>
              r.error == BadArgCount(ResolveMode(ModeNames(table), m).value, nargs)
  {
    var mode :- ResolveMode(ModeNames(table), m);
    if nargs !in CountsOf(table, mode) then Err(BadArgCount(mode, nargs)) else Ok(mode)
  }

  const ModeList: seq<string> := ["new", "edit", "run", "ls", "diff", "mv", "kill", "view", "cp", "del", "file"]

  lemma TableNames()
    ensures ModeNames(Modes) == ModeList
  {
  }

  /** In the lemmas below, each mode is ruled in by its prefix and ruled
      out by the first letter in which it differs from the abbreviation. */
  lemma MatchesD()
    ensures StartingWith(ModeList, "d") == ["diff", "del"]
  {
    assert "d"[0] != "new"[0];
    assert "d"[0] != "edit"[0];
    assert "d"[0] != "run"[0];
    assert "d"[0] != "ls"[0];
    assert "diff"[..1] == "d";
    assert "d"[0] != "mv"[0];
    assert "d"[0] != "kill"[0];
    assert "d"[0] != "view"[0];
    assert "d"[0] != "cp"[0];
    assert "del"[..1] == "d";
    assert "d"[0] != "file"[0];
  }

  /** `d` abbreviates both `diff` and `del`, so it is rejected naming
      both. */
  lemma AbbreviationAmbiguous()
    ensures ResolveMode(ModeNames(Modes), "d") == Err(Ambiguous("d", "diff", "del"))
  {
    TableNames();
    MatchesD();
    assert "d" !in ModeList;
  }

  lemma MatchesRu()
    ensures StartingWith(ModeList, "ru") == ["run"]
  {
    assert "ru"[0] != "new"[0];
    assert "ru"[0] != "edit"[0];
    assert "run"[..2] == "ru";
    assert "ru"[0] != "ls"[0];
    assert "ru"[0] != "diff"[0];
    assert "ru"[0] != "mv"[0];
    assert "ru"[0] != "kill"[0];
    assert "ru"[0] != "view"[0];
    assert "ru"[0] != "cp"[0];
    assert "ru"[0] != "del"[0];
    assert "ru"[0] != "file"[0];
  }

  /** `ru` abbreviates `run` and nothing else. */
  lemma AbbreviationUnique()
    ensures ResolveMode(ModeNames(Modes), "ru") == Ok("run")
  {
    TableNames();
    MatchesRu();
    assert "ru" !in ModeList;
  }

  lemma MatchesX()
    ensures StartingWith(ModeList, "x") == []
  {
    assert "x"[0] != "new"[0];
    assert "x"[0] != "edit"[0];
    assert "x"[0] != "run"[0];
    assert "x"[0] != "ls"[0];
    assert "x"[0] != "diff"[0];
    assert "x"[0] != "mv"[0];
    assert "x"[0] != "kill"[0];
    assert "x"[0] != "view"[0];
    assert "x"[0] != "cp"[0];
    assert "x"[0] != "del"[0];
    assert "x"[0] != "file"[0];
  }

  lemma AbbreviationUnknown()
    ensures ResolveMode(ModeNames(Modes), "x") == Err(UnknownMode("x"))
  {
    TableNames();
    MatchesX();
    assert "x" !in ModeList;
  }

  lemma MatchesDi()
    ensures StartingWith(ModeList, "di") == ["diff"]
  {
    assert "di"[0] != "new"[0];
    assert "di"[0] != "edit"[0];
    assert "di"[0] != "run"[0];
    assert "di"[0] != "ls"[0];
    assert "diff"[..2] == "di";
    assert "di"[0] != "mv"[0];
    assert "di"[0] != "kill"[0];
    assert "di"[0] != "view"[0];
    assert "di"[0] != "cp"[0];
    assert "di"[1] != "del"[1];
    assert "di"[0] != "file"[0];
  }

  /** `diff` compares two jobs, so one argument is refused after the
      abbreviation `di` is resolved. */
  lemma ArgCountChecked()
    ensures ResolveCommand(Modes, "di", 1) == Err(BadArgCount("diff", 1))
    ensures ResolveCommand(Modes, "di", 2) == Ok("diff")
  {
    TableNames();
    MatchesDi();
    assert "di" !in ModeList;
    DiffCounts();
  }

  lemma DiffCounts()
    ensures CountsOf(Modes, "diff") == [2]
  {
    assert "diff"[0] != "new"[0] && "diff"[0] != "edit"[0] && "diff"[0] != "run"[0] && "diff"[0] != "ls"[0];
  }
}
