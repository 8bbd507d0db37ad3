/** `parse_variants` and the `run`/`vprof` command line: turning
    `param=variant` tokens into a run name, the selected fragments, and the
    command typed into the run's window. */
module Variants {
  import opened Results
  import opened Text
  import opened Tagger
  import opened JobState

  /** The run name (the window name) and the selected fragments, each
      preceded by a space. */
  datatype Selection = Selection(runName: string, fragments: string)

  /** The base command every run invokes (`BASE_CMD`). */
  const BaseCommand: string := "bin/matt.py"

  /** The text before the first `=` of a token. */
  function ParamPart(arg: string): string {
    if '=' in arg then arg[..IndexOf(arg, '=')] else arg
  }

  /** The text after the first `=` of a token. */
  function VariantPart(arg: string): string {
    if '=' in arg then arg[IndexOf(arg, '=') + 1..] else ""
  }

  /** The token has exactly one `=`. */
  predicate OneEquals(arg: string) {
    '=' in arg && '=' !in VariantPart(arg)
  }

  /** `arg.split('=')` has two parts exactly when the token has one `=`, and
      the parts are then the text before and after it. */
  lemma SplitAtEquals(arg: string)
    requires '=' in arg
    ensures |Split(arg, '=')| == 2 <==> OneEquals(arg)
    ensures OneEquals(arg) ==> Split(arg, '=') == [ParamPart(arg), VariantPart(arg)]
  {
    var rest := arg[IndexOf(arg, '=') + 1..];
    if '=' in rest {
      assert |Split(rest, '=')| >= 2;
    }
  }

  /** One iteration of the loop in `parse_variants`: a token without `=`,
      with more than one `=` (the unpacking of `arg.split('=')` raises), with
      an undeclared param, or with an undeclared variant is rejected, in that
      order; otherwise the token selects that variant and its fragment. */
  function ResolveToken(params: ParamTable, arg: string): (r: Result<(string, string), ErrorKind>)
    ensures r.Ok? <==> OneEquals(arg) && Declared(params, ParamPart(arg), VariantPart(arg))
    ensures r.Ok? ==> r.value == (VariantPart(arg), params[ParamPart(arg)][VariantPart(arg)])
    ensures '=' !in arg ==> r == Err(MissingEquals(arg))
    ensures '=' in arg && !OneEquals(arg) ==> r == Err(MalformedToken(arg))
    ensures OneEquals(arg) && ParamPart(arg) !in params ==> r == Err(UnknownParam(ParamPart(arg), arg))
    ensures OneEquals(arg) && ParamPart(arg) in params && VariantPart(arg) !in params[ParamPart(arg)] ==>
              r == Err(UnknownVariant(ParamPart(arg), VariantPart(arg), arg))
  {
    if '=' !in arg then Err(MissingEquals(arg))
    else
      SplitAtEquals(arg);
      var pieces := Split(arg, '=');
      if |pieces| != 2 then Err(MalformedToken(arg))
      else
        var param := pieces[0];
        var variant := pieces[1];
        if param !in params then Err(UnknownParam(param, arg))
        else if variant !in params[param] then Err(UnknownVariant(param, variant, arg))
        else Ok((variant, params[param][variant]))
  }

  /** What each token resolves to, in token order. */
  function Outcomes(params: ParamTable, args: seq<string>): (rs: seq<Result<(string, string), ErrorKind>>)
    ensures |rs| == |args|
    ensures forall i :: 0 <= i < |args| ==> rs[i] == ResolveToken(params, args[i])
  {
    seq(|args|, i requires 0 <= i < |args| => ResolveToken(params, args[i]))
  }

  lemma OutcomesCons(params: ParamTable, args: seq<string>)
    requires |args| > 0
    ensures Outcomes(params, args)[0] == ResolveToken(params, args[0])
    ensures Outcomes(params, args)[1..] == Outcomes(params, args[1..])
  {
    var rs := Outcomes(params, args);
    assert forall i :: 0 <= i < |args| - 1 ==> rs[1..][i] == rs[i + 1] && args[1..][i] == args[i + 1];
  }

  /** Every token selects a declared variant. */
  predicate AllResolve(params: ParamTable, args: seq<string>) {
    AllOk(Outcomes(params, args))
  }

  /** `e` is the error of the first token that does not resolve. */
  predicate FirstFailure(params: ParamTable, args: seq<string>, e: ErrorKind) {
    FirstErr(Outcomes(params, args), e)
  }

  /** The variant names of the tokens, in token order. */
  function VariantParts(args: seq<string>): (vs: seq<string>)
    ensures |vs| == |args|
    ensures forall i :: 0 <= i < |args| ==> vs[i] == VariantPart(args[i])
  {
    seq(|args|, i requires 0 <= i < |args| => VariantPart(args[i]))
  }

  /** The run name of a `run`/`vprof` line: its variants joined by `.`. */
  function RunName(args: seq<string>): string {
    Join(VariantParts(args), '.')
  }

  /** The fragment a token selects (empty when it selects nothing). */
  function SelectedFragment(params: ParamTable, arg: string): string {
    if Declared(params, ParamPart(arg), VariantPart(arg))
    then params[ParamPart(arg)][VariantPart(arg)] else ""
  }

  /** `' ' + fragment` for every token, in token order. */
  function FragmentText(params: ParamTable, args: seq<string>): string {
    if |args| == 0 then ""
    else " " + SelectedFragment(params, args[0]) + FragmentText(params, args[1..])
  }

  /** How the token-wise notions above split off the first token. */
  lemma FirstToken(params: ParamTable, args: seq<string>)
    requires |args| > 0
    ensures AllResolve(params, args) <==> ResolveToken(params, args[0]).Ok? && AllResolve(params, args[1..])
    ensures ResolveToken(params, args[0]).Err? ==> FirstFailure(params, args, ResolveToken(params, args[0]).error)
    ensures forall e :: ResolveToken(params, args[0]).Ok? && FirstFailure(params, args[1..], e) ==> FirstFailure(params, args, e)
  {
    var rs := Outcomes(params, args);
    OutcomesCons(params, args);
    AllOkCons(rs);
    if rs[0].Err? {
      FirstErrHead(rs);
    }
    forall e | rs[0].Ok? && FirstErr(rs[1..], e)
      ensures FirstErr(rs, e)
    {
      FirstErrLater(rs, e);
    }
  }

  /** The loop of `parse_variants` from some point on, with the variants and
      the command text accumulated so far. */
  function ParseVariantsFrom(params: ParamTable, args: seq<string>, variants: seq<string>, cmd: string): (r: Result<Selection, ErrorKind>)
    ensures r.Ok? <==> AllResolve(params, args)
    ensures r.Ok? ==> r.value == Selection(Join(variants + VariantParts(args), '.'), cmd + FragmentText(params, args))
    ensures r.Err? ==> FirstFailure(params, args, r.error)
    decreases |args|
  {
    if |args| == 0 then
      assert variants + VariantParts(args) == variants;
      Ok(Selection(Join(variants, '.'), cmd))
    else
      FirstToken(params, args);
      match ResolveToken(params, args[0])
      case Err(e) => Err(e)
      case Ok(choice) =>
        Accumulate(params, args, variants, cmd, choice.0, choice.1);
        ParseVariantsFrom(params, args[1..], variants + [choice.0], cmd + " " + choice.1)
  }

  /** One resolved token moves its variant and its fragment from the rest
      of the tokens to what has been accumulated. */
  lemma Accumulate(params: ParamTable, args: seq<string>, variants: seq<string>, cmd: string, v: string, f: string)
    requires |args| > 0 && v == VariantPart(args[0]) && f == SelectedFragment(params, args[0])
    ensures variants + [v] + VariantParts(args[1..]) == variants + VariantParts(args)
    ensures cmd + " " + f + FragmentText(params, args[1..]) == cmd + FragmentText(params, args)
  {
    AccumulateVariant(args, variants, v);
    AccumulateFragment(params, args, cmd, f);
  }

  lemma AccumulateVariant(args: seq<string>, variants: seq<string>, v: string)
    requires |args| > 0 && v == VariantPart(args[0])
    ensures variants + [v] + VariantParts(args[1..]) == variants + VariantParts(args)
  {
    VariantPartsCons(args);
    Shift(variants, [v], VariantParts(args[1..]));
  }

  lemma AccumulateFragment(params: ParamTable, args: seq<string>, cmd: string, f: string)
    requires |args| > 0 && f == SelectedFragment(params, args[0])
    ensures cmd + " " + f + FragmentText(params, args[1..]) == cmd + FragmentText(params, args)
  {
    Shift(cmd, " " + f, FragmentText(params, args[1..]));
  }

  lemma VariantPartsCons(args: seq<string>)
    requires |args| > 0
    ensures VariantParts(args) == [VariantPart(args[0])] + VariantParts(args[1..])
  {
  }

  lemma Shift<T>(a: seq<T>, b: seq<T>, c: seq<T>)
    ensures a + b + c == a + (b + c)
  {
  }

  /** `parse_variants`: succeeds exactly when every token resolves, and then
      the run name is the variants joined by `.` and the fragment text is
      `' ' + fragment` per token, both in token order; otherwise the error is
      the first bad token's. */
  function ParseVariants(params: ParamTable, args: seq<string>): (r: Result<Selection, ErrorKind>)
    ensures r.Ok? <==> AllResolve(params, args)
    ensures r.Ok? ==> r.value.runName == RunName(args)
    ensures r.Ok? ==> r.value.fragments == FragmentText(params, args)
    ensures r.Err? ==> FirstFailure(params, args, r.error)
  {
    assert [] + VariantParts(args) == VariantParts(args);
    ParseVariantsFrom(params, args, [], "")
  }

  /** The command of line 303, before it is wrapped, in three pieces:
      what names the job and the run, the tag with the shared text and the
      fragments, and the run-info suffix. */
  function CommandHead(job: string, runName: string): string {
    BaseCommand + " job_name=" + job + " run_name=" + runName + " "
  }

  function CommandBody(job: string, shared: string, fragments: string): string {
    ProcessTag(job) + " " + shared + " " + fragments
  }

  function CommandTail(job: string, runName: string, stamp: string): string {
    " job_info=" + stamp + "." + job + "." + runName
  }

  function InnerCommand(job: string, runName: string, shared: string, fragments: string, stamp: string): string
  {
    CommandHead(job, runName) + CommandBody(job, shared, fragments) + CommandTail(job, runName, stamp)
  }

  const PythonOpen: string := "![python "
  const PythonClose: string := "]"
  const ProfileOpen: string := "![vprof -c cp \""
  const ProfileClose: string := "\" --output-file profile.json]"

  /** The command typed into a `run` (`profiled` false) or `vprof` window:
      the base command naming the job and the run, then the job's process
      tag, the shared text and the selected fragments, and last the
      `job_info` suffix, wrapped in a `python` or a `vprof` invocation. */
  function RunCommand(job: string, runName: string, shared: string, fragments: string, stamp: string, profiled: bool): (command: string)
    ensures IsInfix(BaseCommand + " job_name=" + job + " run_name=" + runName + " "
                    + ProcessTag(job) + " " + shared + " " + fragments, command)
    ensures IsInfix(ProcessTag(job) + " " + shared + " " + fragments, command)
    ensures IsInfix(" run_name=" + runName + " ", command)
    ensures !profiled ==> (PythonOpen <= command
              && EndsWith(command, " job_info=" + stamp + "." + job + "." + runName + PythonClose))
    ensures profiled ==> (ProfileOpen <= command
              && EndsWith(command, " job_info=" + stamp + "." + job + "." + runName + ProfileClose))
  {
    var open := if profiled then ProfileOpen else PythonOpen;
    var close := if profiled then ProfileClose else PythonClose;
    CommandLayout(open, job, runName, shared, fragments, stamp, close);
    HeadThenBody(job, runName, shared, fragments);
    open + InnerCommand(job, runName, shared, fragments, stamp) + close
  }

  lemma CommandLayout(open: string, job: string, runName: string, shared: string, fragments: string, stamp: string, close: string)
    ensures var c := open + InnerCommand(job, runName, shared, fragments, stamp) + close;
      && IsInfix(CommandHead(job, runName) + CommandBody(job, shared, fragments), c)
      && IsInfix(CommandBody(job, shared, fragments), c)
      && IsInfix(" run_name=" + runName + " ", c)
      && open <= c && EndsWith(c, CommandTail(job, runName, stamp) + close)
  {
    var head := CommandHead(job, runName);
    var body := CommandBody(job, shared, fragments);
    var tail := CommandTail(job, runName, stamp);
    Layout3(open, head, body, tail, close);
    HeadNamesRun(job, runName);
    InfixOfHead(" run_name=" + runName + " ", open, head, body, tail, close);
  }

  /** The head and the body of the command, written out. */
  lemma HeadThenBody(job: string, runName: string, shared: string, fragments: string)
    ensures CommandHead(job, runName) + CommandBody(job, shared, fragments)
         == BaseCommand + " job_name=" + job + " run_name=" + runName + " "
            + ProcessTag(job) + " " + shared + " " + fragments
  {
  }

  lemma InfixOfHead(x: string, open: string, head: string, body: string, tail: string, close: string)
    requires IsInfix(x, head)
    ensures IsInfix(x, open + (head + body + tail) + close)
  {
    InfixGrow(x, head, open, body + tail + close);
    assert open + head + (body + tail + close) == open + (head + body + tail) + close;
  }

  lemma Layout3(open: string, head: string, body: string, tail: string, close: string)
    ensures var c := open + (head + body + tail) + close;
      IsInfix(head + body, c) && IsInfix(body, c) && open <= c && EndsWith(c, tail + close)
  {
    var inner := head + body + tail;
    OccursBetween(head, body, tail);
    InfixGrow(body, inner, open, close);
    var c := open + inner + close;
    OccursBetween(open, head + body, tail + close);
    assert open + (head + body) + (tail + close) == c;
    assert c[..|open|] == open;
    assert c[|c| - |tail + close|..] == tail + close;
  }

  lemma HeadNamesRun(job: string, runName: string)
    ensures IsInfix(" run_name=" + runName + " ", CommandHead(job, runName))
  {
    var x := " run_name=" + runName + " ";
    var a := BaseCommand + " job_name=" + job;
    assert CommandHead(job, runName) == a + x + "";
    OccursBetween(a, x, "");
  }

  /** A `run` (or, with `profiled`, a `vprof`) line with tokens `args`: it
      fails when a token does not resolve or when the run name is taken or
      starts with the job name; otherwise it appends one window named after
      the run, whose command uses the shared text as it stands at this line. */
  function RunWindow(job: string, stamp: string, st: State, args: seq<string>, profiled: bool): (r: Result<State, ErrorKind>)
    ensures r.Err? <==> !AllResolve(st.params, args) || RunName(args) in Names(st.windows) || job <= RunName(args)
    ensures !AllResolve(st.params, args) ==> FirstFailure(st.params, args, r.error)
    ensures r.Ok? ==> r.value.windows == st.windows + [Window(RunName(args),
              RunCommand(job, RunName(args), SharedText(st), FragmentText(st.params, args), stamp, profiled))]
    ensures r.Ok? ==> r.value.(windows := st.windows) == st
  {
    var selection :- ParseVariants(st.params, args);
    var command := RunCommand(job, selection.runName, SharedText(st), selection.fragments, stamp, profiled);
    AddWindow(job, st, selection.runName, command)
  }
}
