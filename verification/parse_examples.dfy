/** Whole job files and what `JobParser.Parse` makes of them: a variant
    declared twice, a run of an undeclared parameter, and a small sweep of
    two runs over one parameter. */
module ParseExamples {
  import opened Results
  import opened Text
  import opened Tagger
  import opened JobState
  import opened Variants
  import opened JobParser
  import opened ParseFacts

  /** `param=variant`, as written on a `run` line. */
  function Token(param: string, variant: string): string {
    param + "=" + variant
  }

  /** A token with one `=` splits back into its param and its variant. */
  lemma TokenParts(param: string, variant: string)
    requires '=' !in param && '=' !in variant
    ensures OneEquals(Token(param, variant))
    ensures ParamPart(Token(param, variant)) == param
    ensures VariantPart(Token(param, variant)) == variant
  {
    var tok := Token(param, variant);
    assert tok == param + ("=" + variant);
    assert tok[..|param|] == param;
    IndexOfUnique(tok, '=', |param|);
    assert tok[|param| + 1..] == variant;
  }

  lemma TokenIsWord(param: string, variant: string)
    requires IsWord(param) && IsWord(variant)
    ensures IsWord(Token(param, variant))
  {
    assert IsWord("=");
    WordConcat(param, "=");
    WordConcat(param + "=", variant);
  }

  /** A one-line file is that line's step from the empty tables. */
  lemma ParseOne(job: string, stamp: string, a: string)
    ensures Parse(job, stamp, [a]) == match Step(job, stamp, Initial, a)
      case Ok(st) => Ok(st)
      case Err(kind) => Err(SpecError(1, a, kind))
  {
    assert [a][..0] == [];
    assert Parse(job, stamp, [a][..0]) == Ok(Initial);
  }

  /** A two-line file is the second line's step after the first's. */
  lemma ParseTwo(job: string, stamp: string, a: string, b: string, st: State)
    requires Step(job, stamp, Initial, a) == Ok(st)
    ensures Parse(job, stamp, [a, b]) == match Step(job, stamp, st, b)
      case Ok(st') => Ok(st')
      case Err(kind) => Err(SpecError(2, b, kind))
  {
    ParseOne(job, stamp, a);
    assert [a, b][..1] == [a];
  }

  /** Declaring the same variant of a parameter twice rejects the second
      declaration, at line 2, whatever the two fragments are. */
  lemma DuplicateVariantRejected(job: string, stamp: string, param: string, variant: string,
                                 first: seq<string>, second: seq<string>)
    requires IsWord(param) && IsWord(variant)
    requires forall i :: 0 <= i < |first| ==> IsWord(first[i])
    requires forall i :: 0 <= i < |second| ==> IsWord(second[i])
    ensures var lines := [Join(["param", param, variant] + first, ' ') + "\n",
                          Join(["param", param, variant] + second, ' ') + "\n"];
      Parse(job, stamp, lines) == Err(SpecError(2, lines[1], DuplicateVariant(param, variant)))
  {
    var lines := [Join(["param", param, variant] + first, ' ') + "\n",
                  Join(["param", param, variant] + second, ' ') + "\n"];
    assert IsSpace('\n');
    ParamLine(job, stamp, Initial, param, variant, first, "\n");
    var st := AddParam(Initial, param, variant, Join(first, ' ')).value;
    ParamLine(job, stamp, st, param, variant, second, "\n");
    ParseTwo(job, stamp, lines[0], lines[1], st);
  }

  /** A `run` line naming a parameter nobody declared is rejected with that
      parameter and the token that named it. */
  lemma UndeclaredParamRejected(job: string, stamp: string, param: string, variant: string)
    requires IsWord(param) && IsWord(variant) && '=' !in param && '=' !in variant
    ensures var line := Join(["run", Token(param, variant)], ' ') + "\n";
      Parse(job, stamp, [line]) == Err(SpecError(1, line, UnknownParam(param, Token(param, variant))))
  {
    var tok := Token(param, variant);
    var line := Join(["run", tok], ' ') + "\n";
    assert IsSpace('\n');
    TokenIsWord(param, variant);
    TokenParts(param, variant);
    RunLine(job, stamp, Initial, [tok], false, "\n");
    assert ResolveToken(Initial.params, tok) == Err(UnknownParam(param, tok));
    ParseOne(job, stamp, line);
  }

  /** One accepted line more extends an accepted prefix of a file. */
  lemma ParseNext(job: string, stamp: string, lines: seq<string>, k: nat, st: State, st': State)
    requires k < |lines|
    requires Parse(job, stamp, lines[..k]) == Ok(st) && Step(job, stamp, st, lines[k]) == Ok(st')
    ensures Parse(job, stamp, lines[..k + 1]) == Ok(st')
    ensures k + 1 == |lines| ==> Parse(job, stamp, lines) == Ok(st')
  {
    ParseSnoc(job, stamp, lines[..k + 1]);
    assert lines[..k + 1][..k] == lines[..k];
    assert k + 1 == |lines| ==> lines[..k + 1] == lines;
  }

  lemma ParseNothing(job: string, stamp: string, lines: seq<string>)
    ensures Parse(job, stamp, lines[..0]) == Ok(Initial)
  {
  }

  /** A nightly sweep over two learning rates: a comment, two variants of
      `lr`, and one run of each, every line closed by `ending`. */
  function Sweep(ending: string): (lines: seq<string>)
    ensures |lines| == 5
  {
    ["# nightly sweep" + ending,
     "param lr low lr=0.01" + ending,
     "param lr high lr=0.1" + ending,
     "run lr=" + "low" + ending,
     "run lr=" + "high" + ending]
  }

  lemma SweepComment(job: string, stamp: string, ending: string)
    requires AllSpace(ending)
    ensures Step(job, stamp, Initial, Sweep(ending)[0]) == Ok(Initial)
  {
    assert !IsSpace('#') && !IsSpace('p');
    StripPadding("# nightly sweep", ending);
  }

  function Low(): State {
    Initial.(params := map["lr" := map["low" := "lr=0.01"]])
  }

  function Both(): State {
    Initial.(params := map["lr" := map["low" := "lr=0.01", "high" := "lr=0.1"]])
  }

  /** The text of a sweep's `param lr <variant> <fragment>` line. */
  lemma SweepParamText(variant: string, fragment: string)
    ensures "param lr " + variant + " " + fragment == Join(["param", "lr", variant] + [fragment], ' ')
  {
    assert ["param", "lr", variant] + [fragment] == ["param"] + (["lr"] + ([variant] + [fragment]));
    JoinCons(variant, [fragment], ' ');
    JoinCons("lr", [variant] + [fragment], ' ');
    JoinCons("param", ["lr"] + ([variant] + [fragment]), ' ');
  }

  lemma SweepWords()
    ensures IsWord("lr") && IsWord("low") && IsWord("high") && IsWord("lr=0.01") && IsWord("lr=0.1")
  {
  }

  lemma SweepLow(job: string, stamp: string, ending: string)
    requires AllSpace(ending)
    ensures Step(job, stamp, Initial, Sweep(ending)[1]) == Ok(Low())
  {
    SweepWords();
    SweepParamText("low", "lr=0.01");
    var line := Join(["param", "lr", "low"] + ["lr=0.01"], ' ') + ending;
    assert Sweep(ending)[1] == line;
    ParamLine(job, stamp, Initial, "lr", "low", ["lr=0.01"], ending);
    LowTables();
  }

  lemma LowTables()
    ensures AddParam(Initial, "lr", "low", "lr=0.01") == Ok(Low())
  {
    assert VariantsOf(Initial.params, "lr") == map[];
    assert map[]["low" := "lr=0.01"] == Low().params["lr"];
  }

  lemma SweepHigh(job: string, stamp: string, ending: string)
    requires AllSpace(ending)
    ensures Step(job, stamp, Low(), Sweep(ending)[2]) == Ok(Both())
  {
    SweepWords();
    SweepParamText("high", "lr=0.1");
    var line := Join(["param", "lr", "high"] + ["lr=0.1"], ' ') + ending;
    assert Sweep(ending)[2] == line;
    ParamLine(job, stamp, Low(), "lr", "high", ["lr=0.1"], ending);
    BothTables();
  }

  lemma BothTables()
    ensures AddParam(Low(), "lr", "high", "lr=0.1") == Ok(Both())
  {
    var variants := map["low" := "lr=0.01"]["high" := "lr=0.1"];
    assert variants == Both().params["lr"];
    assert Low().params["lr" := variants] == Both().params;
  }

  /** The window the run of `lr=<variant>` opens over the sweep's tables. */
  function SweepWindow(job: string, stamp: string, variant: string): Window {
    Window(variant, RunCommand(job, variant, SharedText(Both()),
                              FragmentText(Both().params, [Token("lr", variant)]), stamp, false))
  }

  lemma SweepRunText(variant: string)
    requires variant == "low" || variant == "high"
    ensures "run lr=" + variant == Join(["run"] + [Token("lr", variant)], ' ')
    ensures IsWord(Token("lr", variant)) && IsWord("lr") && IsWord(variant)
    ensures ParamPart(Token("lr", variant)) == "lr" && VariantPart(Token("lr", variant)) == variant
    ensures OneEquals(Token("lr", variant))
  {
    SweepWords();
    TokenIsWord("lr", variant);
    TokenParts("lr", variant);
    JoinCons("run", [Token("lr", variant)], ' ');
  }

  lemma SweepResolves(st: State, variant: string)
    requires variant == "low" || variant == "high"
    requires st.params == Both().params
    ensures AllResolve(st.params, [Token("lr", variant)])
    ensures RunName([Token("lr", variant)]) == variant
  {
    SweepRunText(variant);
    var tok := Token("lr", variant);
    assert ResolveToken(st.params, tok).Ok?;
    assert VariantParts([tok]) == [variant];
  }

  lemma SweepRun(job: string, stamp: string, st: State, variant: string, ending: string)
    requires variant == "low" || variant == "high"
    requires AllSpace(ending)
    requires st.params == Both().params && variant !in Names(st.windows) && !(job <= variant)
    requires st.sharedLocal == [] && st.sharedGlobal == ""
    ensures Step(job, stamp, st, "run lr=" + variant + ending)
              == Ok(st.(windows := st.windows + [SweepWindow(job, stamp, variant)]))
  {
    var tok := Token("lr", variant);
    SweepRunText(variant);
    RunLine(job, stamp, st, [tok], false, ending);
    SweepResolves(st, variant);
    assert SharedText(st) == SharedText(Both());
  }

  /** The sweep parses to two windows, `low` and `high`, in file order,
      whatever the line ending; each window runs the command composed from
      its variant's fragment. */
  lemma SweepParses(job: string, stamp: string, ending: string)
    requires AllSpace(ending)
    requires !(job <= "low") && !(job <= "high")
    ensures Parse(job, stamp, Sweep(ending)).Ok?
    ensures var ws := Parse(job, stamp, Sweep(ending)).value.windows;
      && Names(ws) == ["low", "high"]
      && ws == [SweepWindow(job, stamp, "low"), SweepWindow(job, stamp, "high")]
      && IsInfix("lr=0.01", ws[0].command) && IsInfix("lr=0.1", ws[1].command)
      && IsInfix(ProcessTag(job), ws[0].command) && IsInfix(ProcessTag(job), ws[1].command)
  {
    SweepFinal(job, stamp, ending);
    SweepNames(job, stamp);
    SweepCommand(job, stamp, "low", "lr=0.01");
    SweepCommand(job, stamp, "high", "lr=0.1");
  }

  /** A sweep window's command carries the job's process tag and its
      variant's fragment. */
  lemma SweepCommand(job: string, stamp: string, variant: string, fragment: string)
    requires (variant, fragment) == ("low", "lr=0.01") || (variant, fragment) == ("high", "lr=0.1")
    ensures IsInfix(ProcessTag(job), SweepWindow(job, stamp, variant).command)
    ensures IsInfix(fragment, SweepWindow(job, stamp, variant).command)
  {
    var tok := Token("lr", variant);
    SweepRunText(variant);
    assert SelectedFragment(Both().params, tok) == fragment;
    assert [tok][1..] == [];
    assert FragmentText(Both().params, [tok]) == " " + fragment + FragmentText(Both().params, []);
    assert FragmentText(Both().params, [tok]) == " " + fragment;
    BodyCarries(ProcessTag(job), SharedText(Both()), fragment, SweepWindow(job, stamp, variant).command);
  }

  /** The tag and a lone fragment are found wherever the command body is. */
  lemma BodyCarries(tag: string, shared: string, fragment: string, command: string)
    requires IsInfix(tag + " " + shared + " " + (" " + fragment), command)
    ensures IsInfix(tag, command) && IsInfix(fragment, command)
  {
    var body := tag + " " + shared + " " + (" " + fragment);
    OccursBetween([], tag, " " + shared + " " + (" " + fragment));
    assert [] + tag + (" " + shared + " " + (" " + fragment)) == body;
    InfixTrans(tag, body, command);
    OccursBetween(tag + " " + shared + " " + " ", fragment, "");
    assert tag + " " + shared + " " + " " + fragment + "" == body;
    InfixTrans(fragment, body, command);
  }

  lemma SweepNames(job: string, stamp: string)
    ensures Names([SweepWindow(job, stamp, "low"), SweepWindow(job, stamp, "high")]) == ["low", "high"]
  {
  }

  lemma SweepFinal(job: string, stamp: string, ending: string)
    requires AllSpace(ending)
    requires !(job <= "low") && !(job <= "high")
    ensures Parse(job, stamp, Sweep(ending))
              == Ok(Both().(windows := [SweepWindow(job, stamp, "low"), SweepWindow(job, stamp, "high")]))
  {
    var lines := Sweep(ending);
    var w1 := SweepWindow(job, stamp, "low");
    var w2 := SweepWindow(job, stamp, "high");
    var s3 := Both().(windows := [w1]);
    SweepOneRun(job, stamp, ending);
    SweepRunHigh(job, stamp, ending, s3);
    ParseNext(job, stamp, lines, 4, s3, s3.(windows := s3.windows + [w2]));
    Pair(w1, w2);
  }

  lemma Pair<T>(a: T, b: T)
    ensures [a] + [b] == [a, b]
  {
  }

  lemma SweepRunHigh(job: string, stamp: string, ending: string, s3: State)
    requires AllSpace(ending)
    requires !(job <= "high") && s3 == Both().(windows := [SweepWindow(job, stamp, "low")])
    ensures Step(job, stamp, s3, Sweep(ending)[4]) == Ok(s3.(windows := s3.windows + [SweepWindow(job, stamp, "high")]))
  {
    assert Names(s3.windows) == ["low"];
    SweepRun(job, stamp, s3, "high", ending);
  }

  /** After the first run line the sweep has opened the `low` window. */
  lemma SweepOneRun(job: string, stamp: string, ending: string)
    requires AllSpace(ending)
    requires !(job <= "low")
    ensures Parse(job, stamp, Sweep(ending)[..4]) == Ok(Both().(windows := [SweepWindow(job, stamp, "low")]))
  {
    SweepDeclarations(job, stamp, ending);
    SweepRun(job, stamp, Both(), "low", ending);
    var lines := Sweep(ending);
    var w1 := SweepWindow(job, stamp, "low");
    assert [] + [w1] == [w1];
    assert Step(job, stamp, Both(), lines[3]) == Ok(Both().(windows := [w1]));
    ParseNext(job, stamp, Sweep(ending), 3, Both(), Both().(windows := [SweepWindow(job, stamp, "low")]));
  }

  /** The first three lines of the sweep declare both variants and open
      nothing. */
  lemma SweepDeclarations(job: string, stamp: string, ending: string)
    requires AllSpace(ending)
    ensures Parse(job, stamp, Sweep(ending)[..3]) == Ok(Both())
  {
    var lines := Sweep(ending);
    SweepComment(job, stamp, ending);
    SweepLow(job, stamp, ending);
    SweepHigh(job, stamp, ending);
    ParseNothing(job, stamp, lines);
    ParseNext(job, stamp, lines, 0, Initial, Initial);
    ParseNext(job, stamp, lines, 1, Initial, Low());
    ParseNext(job, stamp, lines, 2, Low(), Both());
  }
}
