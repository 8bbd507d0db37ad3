/** `JobParser.parse`: the job-file interpreter, as a left fold of `Step`
    over the file's lines. Each line is stripped, blank and `#` lines are
    skipped, the rest is split into words and dispatched on the first. */
module JobParser {
  import opened Results
  import opened Text
  import opened JobState
  import opened Variants

  /** The first word of a line, decoded once. `shared` covers every word that
      starts with `shared` and has no `(` (so `sharedX` too); `SharedKeyed`
      every such word that has one. */
  datatype Keyword =
    | Param
    | Shared(word: string)
    | SharedKeyed(word: string)
    | Raw
    | Run
    | Vprof
    | Unknown(word: string)

  /** A non-blank, non-comment line: its keyword and the words after it. */
  datatype Directive = Directive(keyword: Keyword, args: seq<string>)

  /** A rejected job file: the 1-based number and the raw text of the line
      that was rejected, and why. */
  datatype SpecError = SpecError(lineno: nat, line: string, kind: ErrorKind)

  function Word(k: Keyword): string {
    match k
    case Param => "param"
    case Shared(w) => w
    case SharedKeyed(w) => w
    case Raw => "raw"
    case Run => "run"
    case Vprof => "vprof"
    case Unknown(w) => w
  }

  /** The dispatch of `parse`, in the source's order: `param`, anything
      starting with `shared`, `raw`, `run`/`vprof`, and everything else. The
      keyword keeps the word it came from. */
  function Classify(word: string): (k: Keyword)
    ensures Word(k) == word
    ensures k == Param <==> word == "param"
    ensures k.Shared? <==> "shared" <= word && '(' !in word
    ensures k.SharedKeyed? <==> "shared" <= word && '(' in word
    ensures k == Raw <==> word == "raw"
    ensures k == Run <==> word == "run"
    ensures k == Vprof <==> word == "vprof"
  {
    if word == "param" then Param
    else if "shared" <= word then (if '(' in word then SharedKeyed(word) else Shared(word))
    else if word == "raw" then Raw
    else if word == "run" then Run
    else if word == "vprof" then Vprof
    else Unknown(word)
  }

  /** One raw line of the file: `None` for a blank or comment line (after
      stripping), otherwise the classified first word and the remaining
      words, so that no word is lost. */
  function Decode(line: string): (d: Option<Directive>)
    ensures d.None? <==> Strip(line) == [] || Strip(line)[0] == '#'
    ensures d.Some? ==> Tokens(Strip(line)) == [Word(d.value.keyword)] + d.value.args
    ensures d.Some? ==> d.value.keyword == Classify(Tokens(Strip(line))[0])
  {
    var text := Strip(line);
    if text == [] || text[0] == '#' then None
    else
      var words := Tokens(text);
      Some(Directive(Classify(words[0]), words[1..]))
  }

  /** The key of `shared(<key>)`: the stripped text between the first `(`
      and the first `)` (empty when that `)` comes first); a missing `)`
      makes `mode.index(')')` raise, which rejects the line. */
  function SharedKey(word: string): (r: Result<string, ErrorKind>)
    requires '(' in word
    ensures r.Err? <==> ')' !in word
    ensures r.Err? ==> r.error == SharedKeyUnclosed(word)
  {
    if ')' !in word then Err(SharedKeyUnclosed(word))
    else
      var open := IndexOf(word, '(');
      var close := IndexOf(word, ')');
      Ok(Strip(if open + 1 <= close then word[open + 1..close] else ""))
  }

  /** For the intended syntax `shared(<key>)...` the key is the stripped text
      inside the brackets. */
  lemma SharedKeyOfBrackets(head: string, key: string, rest: string)
    requires '(' !in head && ')' !in head && '(' !in key && ')' !in key
    ensures var word := head + "(" + key + ")" + rest;
      '(' in word && SharedKey(word) == Ok(Strip(key))
  {
    var word := head + "(" + key + ")" + rest;
    var open := |head|;
    var close := |head| + 1 + |key|;
    assert word == head + ("(" + key + ")" + rest);
    assert word[..open] == head;
    IndexOfUnique(word, '(', open);
    var before := head + "(" + key;
    assert word == before + (")" + rest);
    assert word[..close] == before;
    assert ')' !in "(";
    IndexOfUnique(word, ')', close);
    assert word[open + 1..close] == key;
  }

  /** Later lines only add: earlier windows stay, in order, with their
      commands, and declared variants keep their fragments. */
  predicate Grows(st: State, st': State) {
    && st.windows <= st'.windows
    && forall p | p in st.params :: p in st'.params && Extends(st.params[p], st'.params[p])
  }

  lemma AppendKeepsValid(job: string, st: State, w: Window)
    requires Valid(job, st) && w.name !in Names(st.windows) && !(job <= w.name)
    ensures Valid(job, st.(windows := st.windows + [w]))
  {
    var ws := st.windows + [w];
    forall i, j | 0 <= i < j < |ws|
      ensures Names(ws)[i] != Names(ws)[j]
    {
      if j == |st.windows| {
        assert Names(st.windows)[i] == Names(ws)[i];
      } else {
        assert Names(st.windows)[i] == Names(ws)[i] && Names(st.windows)[j] == Names(ws)[j];
      }
    }
  }

  lemma AddParamKeepsValid(job: string, st: State, param: string, variant: string, fragment: string)
    requires Valid(job, st) && AddParam(st, param, variant, fragment).Ok?
    ensures Valid(job, AddParam(st, param, variant, fragment).value)
  {
    var st' := AddParam(st, param, variant, fragment).value;
    forall p | p in st'.params
      ensures |st'.params[p]| > 0
    {
      if p == param {
        assert variant in st'.params[p];
      } else {
        assert p in st.params && |st.params[p]| > 0;
        var v :| v in st.params[p];
        assert Declared(st.params, p, v);
        assert v in st'.params[p];
      }
    }
  }

  /** One directive applied to the tables. `param` needs at least a name and
      a variant and stores the remaining words joined by single spaces;
      `shared` appends `' ' + words` to the global shared text; `shared(k)`
      sets the fragment of key `k`; `raw` needs a window name and registers
      the remaining words joined by single spaces as its command; `run` and
      `vprof` register a composed window; any other keyword is rejected. */
  function Exec(job: string, stamp: string, st: State, d: Directive): (r: Result<State, ErrorKind>)
    requires Classify(Word(d.keyword)) == d.keyword
    ensures d.keyword.Unknown? ==> r == Err(UnrecognizedCommand(d.keyword.word))
    ensures d.keyword == Param && |d.args| < 2 ==> r == Err(ParamArity)
    ensures d.keyword == Raw && |d.args| == 0 ==> r == Err(RawMissingName)
    ensures r.Ok? && Valid(job, st) ==> Valid(job, r.value)
    ensures r.Ok? ==> Grows(st, r.value)
    ensures r.Ok? ==> (r.value.sharedGlobal ==
              if d.keyword.Shared? then st.sharedGlobal + " " + Join(d.args, ' ') else st.sharedGlobal)
  {
    var args := d.args;
    match d.keyword
    case Param =>
      if |args| < 2 then Err(ParamArity)
      else
        var r := AddParam(st, args[0], args[1], Join(args[2..], ' '));
        if r.Ok? && Valid(job, st) then
          AddParamKeepsValid(job, st, args[0], args[1], Join(args[2..], ' '));
          r
        else r
    case Shared(_) => Ok(AppendSharedGlobal(st, Join(args, ' ')))
    case SharedKeyed(word) =>
      var key :- SharedKey(word);
      Ok(SetSharedLocal(st, key, Join(args, ' ')))
    case Raw =>
      if |args| == 0 then Err(RawMissingName)
      else
        var r := AddWindow(job, st, args[0], Join(args[1..], ' '));
        if r.Ok? && Valid(job, st) then
          AppendKeepsValid(job, st, Window(args[0], Join(args[1..], ' ')));
          r
        else r
    case Run => RunStep(job, stamp, st, args, false)
    case Vprof => RunStep(job, stamp, st, args, true)
    case Unknown(word) => Err(UnrecognizedCommand(word))
  }

  function RunStep(job: string, stamp: string, st: State, args: seq<string>, profiled: bool): (r: Result<State, ErrorKind>)
    ensures r == RunWindow(job, stamp, st, args, profiled)
    ensures r.Ok? && Valid(job, st) ==> Valid(job, r.value)
    ensures r.Ok? ==> Grows(st, r.value) && r.value.sharedGlobal == st.sharedGlobal
  {
    var r := RunWindow(job, stamp, st, args, profiled);
    if r.Ok? && Valid(job, st) then
      AppendKeepsValid(job, st, r.value.windows[|st.windows|]);
      assert r.value == st.(windows := st.windows + [r.value.windows[|st.windows|]]);
      r
    else r
  }

  /** One line of the loop in `parse`: skipped lines leave the tables alone;
      others are decoded and executed. */
  function Step(job: string, stamp: string, st: State, line: string): (r: Result<State, ErrorKind>)
    ensures Decode(line).None? ==> r == Ok(st)
    ensures Decode(line).Some? ==> r == Exec(job, stamp, st, Decode(line).value)
    ensures r.Ok? && Valid(job, st) ==> Valid(job, r.value)
    ensures r.Ok? ==> Grows(st, r.value)
  {
    match Decode(line)
    case None => Ok(st)
    case Some(d) => Exec(job, stamp, st, d)
  }

  /** `parse` over the lines of a job file (each with its line ending, as
      the file iterator yields them): the lines are applied in order and the
      first rejected line stops the parse, reporting its 1-based number and
      its raw text. A successful parse keeps the tables valid. */
  function Parse(job: string, stamp: string, lines: seq<string>): (r: Result<State, SpecError>)
    ensures r.Ok? ==> Valid(job, r.value)
    ensures r.Err? ==> 1 <= r.error.lineno <= |lines| && r.error.line == lines[r.error.lineno - 1]
    decreases |lines|
  {
    if |lines| == 0 then Ok(Initial)
    else
      var st :- Parse(job, stamp, lines[..|lines| - 1]);
      match Step(job, stamp, st, lines[|lines| - 1])
      case Ok(st') => Ok(st')
      case Err(kind) => Err(SpecError(|lines|, lines[|lines| - 1], kind))
  }
}
