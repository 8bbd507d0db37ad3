/** Properties of `JobParser.Parse` over whole files: where a parse stops,
    what later lines leave alone, how the global shared text accumulates,
    what a file of `raw` lines yields, and what each kind of line does when
    it is written as plain words. */
module ParseFacts {
  import opened Results
  import opened Text
  import opened Tagger
  import opened JobState
  import opened Variants
  import opened JobParser

  /** A rejected file parses up to the rejected line, and that line is
      rejected in the state the earlier lines produced. */
  lemma {:induction false} ParseStopsAtFirstError(job: string, stamp: string, lines: seq<string>)
    requires Parse(job, stamp, lines).Err?
    ensures var e := Parse(job, stamp, lines).error;
      && Parse(job, stamp, lines[..e.lineno - 1]).Ok?
      && Step(job, stamp, Parse(job, stamp, lines[..e.lineno - 1]).value, e.line) == Err(e.kind)
    decreases |lines|
  {
    var init := lines[..|lines| - 1];
    if Parse(job, stamp, init).Err? {
      ParseStopsAtFirstError(job, stamp, init);
      var e := Parse(job, stamp, init).error;
      assert Parse(job, stamp, lines) == Err(e);
      PrefixOfInit(lines, e.lineno - 1);
    } else {
      var r := Step(job, stamp, Parse(job, stamp, init).value, lines[|lines| - 1]);
      assert Parse(job, stamp, lines) == Err(SpecError(|lines|, lines[|lines| - 1], r.error));
    }
  }

  /** How one more line extends a parse: it is accepted exactly when the
      earlier lines are and the line is accepted in their state. */
  lemma ParseSnoc(job: string, stamp: string, lines: seq<string>)
    requires |lines| > 0
    ensures var before := Parse(job, stamp, lines[..|lines| - 1]);
      && (Parse(job, stamp, lines).Ok? <==>
            before.Ok? && Step(job, stamp, before.value, lines[|lines| - 1]).Ok?)
      && (Parse(job, stamp, lines).Ok? ==>
            Parse(job, stamp, lines).value == Step(job, stamp, before.value, lines[|lines| - 1]).value)
  {
  }

  lemma GrowsTrans(a: State, b: State, c: State)
    requires Grows(a, b) && Grows(b, c)
    ensures Grows(a, c)
  {
  }

  /** Every prefix of an accepted file is accepted, and the rest of the file
      only adds to what the prefix produced: the windows of the prefix, with
      the commands built from the shared text as it stood then, are the first
      windows of the whole file. */
  lemma {:induction false} ParsePrefix(job: string, stamp: string, lines: seq<string>, k: nat)
    requires Parse(job, stamp, lines).Ok? && k <= |lines|
    ensures Parse(job, stamp, lines[..k]).Ok?
    ensures Grows(Parse(job, stamp, lines[..k]).value, Parse(job, stamp, lines).value)
    decreases |lines|
  {
    if k == |lines| {
      assert lines[..k] == lines;
    } else {
      var init := lines[..|lines| - 1];
      ParseGrowsLast(job, stamp, lines);
      ParsePrefix(job, stamp, init, k);
      PrefixOfInit(lines, k);
      GrowsTrans(Parse(job, stamp, lines[..k]).value, Parse(job, stamp, init).value, Parse(job, stamp, lines).value);
    }
  }

  /** The last line of an accepted file only adds to what the earlier lines
      produced. */
  lemma ParseGrowsLast(job: string, stamp: string, lines: seq<string>)
    requires |lines| > 0 && Parse(job, stamp, lines).Ok?
    ensures Parse(job, stamp, lines[..|lines| - 1]).Ok?
    ensures Grows(Parse(job, stamp, lines[..|lines| - 1]).value, Parse(job, stamp, lines).value)
  {
  }

  lemma PrefixOfInit<T>(xs: seq<T>, k: nat)
    requires k < |xs|
    ensures xs[..|xs| - 1][..k] == xs[..k]
  {
  }

  /** What a line adds to the global shared text: `' ' + words` for a plain
      `shared` line, nothing for any other line. */
  function SharedContribution(line: string): string {
    match Decode(line)
    case Some(Directive(Shared(_), args)) => " " + Join(args, ' ')
    case _ => ""
  }

  /** The contributions of all lines, in file order. */
  function GlobalSharedText(lines: seq<string>): string
    decreases |lines|
  {
    if |lines| == 0 then ""
    else GlobalSharedText(lines[..|lines| - 1]) + SharedContribution(lines[|lines| - 1])
  }

  /** In an accepted file the global shared text is the concatenation, in
      file order, of `' ' + words` over the plain `shared` lines. */
  lemma {:induction false} SharedGlobalAccumulates(job: string, stamp: string, lines: seq<string>)
    requires Parse(job, stamp, lines).Ok?
    ensures Parse(job, stamp, lines).value.sharedGlobal == GlobalSharedText(lines)
    decreases |lines|
  {
    if |lines| > 0 {
      var init := lines[..|lines| - 1];
      var last := lines[|lines| - 1];
      ParseSnoc(job, stamp, lines);
      SharedGlobalAccumulates(job, stamp, init);
      StepSharedGlobal(job, stamp, Parse(job, stamp, init).value, last);
    }
  }

  /** One accepted line adds its contribution to the global shared text. */
  lemma StepSharedGlobal(job: string, stamp: string, st: State, line: string)
    requires Step(job, stamp, st, line).Ok?
    ensures Step(job, stamp, st, line).value.sharedGlobal == st.sharedGlobal + SharedContribution(line)
  {
    if Decode(line).None? {
      assert st.sharedGlobal + "" == st.sharedGlobal;
    } else {
      var d := Decode(line).value;
      ContributionOf(line, d);
      ExecSharedGlobal(job, stamp, st, d);
    }
  }

  lemma ExecSharedGlobal(job: string, stamp: string, st: State, d: Directive)
    requires Classify(Word(d.keyword)) == d.keyword && Exec(job, stamp, st, d).Ok?
    ensures Exec(job, stamp, st, d).value.sharedGlobal
              == st.sharedGlobal + if d.keyword.Shared? then " " + Join(d.args, ' ') else ""
  {
    if d.keyword.Shared? {
      assert st.sharedGlobal + " " + Join(d.args, ' ') == st.sharedGlobal + (" " + Join(d.args, ' '));
    } else {
      assert st.sharedGlobal + "" == st.sharedGlobal;
    }
  }

  lemma ContributionOf(line: string, d: Directive)
    requires Decode(line) == Some(d)
    ensures SharedContribution(line) == if d.keyword.Shared? then " " + Join(d.args, ' ') else ""
  {
  }

  /** A line that is blank, a comment, or `raw` with a window name. */
  predicate RawOrSkipped(line: string) {
    match Decode(line)
    case None => true
    case Some(d) => d.keyword == Raw && |d.args| > 0
  }

  /** The window a `raw` line declares: its first word names it and the rest,
      joined by single spaces, is its command. */
  function RawWindow(line: string): seq<Window> {
    match Decode(line)
    case Some(Directive(Raw, args)) => if |args| > 0 then [Window(args[0], Join(args[1..], ' '))] else []
    case _ => []
  }

  /** The windows the `raw` lines declare, in file order. */
  function RawWindows(lines: seq<string>): seq<Window>
    decreases |lines|
  {
    if |lines| == 0 then []
    else RawWindows(lines[..|lines| - 1]) + RawWindow(lines[|lines| - 1])
  }

  lemma AcceptableSnoc(job: string, ws: seq<Window>, w: Window)
    ensures Acceptable(job, ws + [w]) <==>
              Acceptable(job, ws) && w.name !in Names(ws) && !(job <= w.name)
  {
    var all := ws + [w];
    assert forall i :: 0 <= i < |ws| ==> Names(all)[i] == Names(ws)[i];
    assert Names(all)[|ws|] == w.name && all[|ws|] == w;
    if Acceptable(job, all) {
      forall i | 0 <= i < |ws|
        ensures Names(ws)[i] != w.name
      {
        assert Names(all)[i] != Names(all)[|ws|];
      }
    }
    if Acceptable(job, ws) && w.name !in Names(ws) && !(job <= w.name) {
      forall i, j | 0 <= i < j < |all|
        ensures Names(all)[i] != Names(all)[j]
      {
        if j < |ws| {
          assert Names(ws)[i] != Names(ws)[j];
        } else {
          assert Names(ws)[i] in Names(ws);
        }
      }
    }
  }

  /** A file of `raw` lines (and blank or comment lines) is accepted exactly
      when its window names are distinct and none starts with the job name,
      and then its windows are the declared ones, in declaration order, with
      their literal commands. */
  lemma {:induction false} RawOnlyFiles(job: string, stamp: string, lines: seq<string>)
    requires forall i :: 0 <= i < |lines| ==> RawOrSkipped(lines[i])
    ensures Parse(job, stamp, lines).Ok? <==> Acceptable(job, RawWindows(lines))
    ensures Parse(job, stamp, lines).Ok? ==> Parse(job, stamp, lines).value.windows == RawWindows(lines)
    decreases |lines|
  {
    if |lines| > 0 {
      var init := lines[..|lines| - 1];
      var last := lines[|lines| - 1];
      assert forall i :: 0 <= i < |init| ==> init[i] == lines[i];
      RawOnlyFiles(job, stamp, init);
      ParseSnoc(job, stamp, lines);
      var before := RawWindows(init);
      if Parse(job, stamp, init).Ok? {
        RawSnoc(job, stamp, Parse(job, stamp, init).value, last, before);
      } else {
        AcceptablePrefix(job, before, RawWindow(last));
      }
    }
  }

  /** One more blank, comment or `raw` line after windows `before` that are
      acceptable: accepted exactly when the windows with the declared one
      are acceptable, and then that is the window list. */
  lemma RawSnoc(job: string, stamp: string, st: State, line: string, before: seq<Window>)
    requires RawOrSkipped(line) && st.windows == before && Acceptable(job, before)
    ensures Step(job, stamp, st, line).Ok? <==> Acceptable(job, before + RawWindow(line))
    ensures Step(job, stamp, st, line).Ok? ==> Step(job, stamp, st, line).value.windows == before + RawWindow(line)
  {
    RawStep(job, stamp, st, line);
    if |RawWindow(line)| == 1 {
      AcceptableSnoc(job, before, RawWindow(line)[0]);
      OneElement(RawWindow(line));
    } else {
      NoElement(before, RawWindow(line));
    }
  }

  lemma OneElement<T>(xs: seq<T>)
    requires |xs| == 1
    ensures xs == [xs[0]]
  {
  }

  lemma NoElement<T>(xs: seq<T>, ys: seq<T>)
    requires |ys| == 0
    ensures xs + ys == xs
  {
  }

  lemma AcceptablePrefix(job: string, ws: seq<Window>, more: seq<Window>)
    ensures Acceptable(job, ws + more) ==> Acceptable(job, ws)
  {
    if Acceptable(job, ws + more) {
      var all := ws + more;
      assert forall i :: 0 <= i < |ws| ==> Names(all)[i] == Names(ws)[i] && all[i] == ws[i];
    }
  }

  /** A blank, comment or `raw` line leaves the tables alone or adds the
      window it declares. */
  lemma RawStep(job: string, stamp: string, st: State, line: string)
    requires RawOrSkipped(line)
    ensures |RawWindow(line)| <= 1
    ensures RawWindow(line) == [] ==> Step(job, stamp, st, line) == Ok(st)
    ensures |RawWindow(line)| == 1 ==>
              Step(job, stamp, st, line) == AddWindow(job, st, RawWindow(line)[0].name, RawWindow(line)[0].command)
  {
  }

  /** The directive words are words. */
  lemma KeywordsAreWords()
    ensures IsWord("param") && IsWord("raw") && IsWord("shared") && IsWord("run") && IsWord("vprof")
    ensures IsWord("shared(") && IsWord(")")
  {
  }

  /** The words of a line, joined by single spaces and followed by any line
      ending, decode to the classified first word and the other words. */
  lemma DecodeWords(words: seq<string>, ending: string)
    requires |words| >= 1 && forall i :: 0 <= i < |words| ==> IsWord(words[i])
    requires |words[0]| > 0 && words[0][0] != '#'
    requires AllSpace(ending)
    ensures Decode(Join(words, ' ') + ending) == Some(Directive(Classify(words[0]), words[1..]))
  {
    var text := Join(words, ' ');
    JoinWordsEnds(words);
    StripPadding(text, ending);
    TokensJoin(words);
    JoinPlaces(words, ' ', 0);
    assert text[0] == words[0][0];
  }

  lemma StepParam(job: string, stamp: string, st: State, line: string, param: string, variant: string, words: seq<string>)
    requires Decode(line) == Some(Directive(Param, [param, variant] + words))
    ensures Step(job, stamp, st, line) == AddParam(st, param, variant, Join(words, ' '))
  {
    assert ([param, variant] + words)[2..] == words;
  }

  lemma ExecShared(job: string, stamp: string, st: State, args: seq<string>)
    ensures Classify("shared") == Shared("shared")
    ensures Exec(job, stamp, st, Directive(Shared("shared"), args)) == Ok(AppendSharedGlobal(st, Join(args, ' ')))
  {
    assert '(' !in "shared";
  }

  lemma StepRaw(job: string, stamp: string, st: State, line: string, name: string, words: seq<string>)
    requires Decode(line) == Some(Directive(Raw, [name] + words))
    ensures Step(job, stamp, st, line) == AddWindow(job, st, name, Join(words, ' '))
  {
    assert ([name] + words)[1..] == words;
  }

  lemma ExecRun(job: string, stamp: string, st: State, args: seq<string>, profiled: bool)
    ensures Exec(job, stamp, st, Directive(if profiled then Vprof else Run, args))
              == RunWindow(job, stamp, st, args, profiled)
  {
  }

  lemma ExecSharedKeyed(job: string, stamp: string, st: State, word: string, args: seq<string>)
    requires Classify(word) == SharedKeyed(word) && '(' in word && SharedKey(word).Ok?
    ensures Exec(job, stamp, st, Directive(SharedKeyed(word), args))
              == Ok(SetSharedLocal(st, SharedKey(word).value, Join(args, ' ')))
  {
  }

  lemma Regroup3<T>(a: T, b: T, c: T, rest: seq<T>)
    ensures [a, b, c] + rest == [a] + ([b, c] + rest)
  {
  }

  lemma Regroup2<T>(a: T, b: T, rest: seq<T>)
    ensures [a, b] + rest == [a] + ([b] + rest)
  {
  }

  /** A keyword followed by argument words is executed as that keyword's
      directive on exactly those arguments. */
  lemma KeywordLine(keyword: string, args: seq<string>, ending: string)
    requires IsWord(keyword) && keyword[0] != '#'
    requires forall i :: 0 <= i < |args| ==> IsWord(args[i])
    requires AllSpace(ending)
    ensures Decode(Join([keyword] + args, ' ') + ending) == Some(Directive(Classify(keyword), args))
  {
    WordsCons(keyword, args);
    DecodeWords([keyword] + args, ending);
    assert ([keyword] + args)[1..] == args;
  }

  /** `param <name> <variant> <words>` registers the variant with its words
      joined by single spaces (empty when there are none). */
  lemma ParamLine(job: string, stamp: string, st: State, param: string, variant: string, words: seq<string>, ending: string)
    requires IsWord(param) && IsWord(variant) && forall i :: 0 <= i < |words| ==> IsWord(words[i])
    requires AllSpace(ending)
    ensures Step(job, stamp, st, Join(["param", param, variant] + words, ' ') + ending)
              == AddParam(st, param, variant, Join(words, ' '))
  {
    ParamDecode(param, variant, words, ending);
    StepParam(job, stamp, st, Join(["param", param, variant] + words, ' ') + ending, param, variant, words);
  }

  lemma ParamDecode(param: string, variant: string, words: seq<string>, ending: string)
    requires IsWord(param) && IsWord(variant) && forall i :: 0 <= i < |words| ==> IsWord(words[i])
    requires AllSpace(ending)
    ensures Decode(Join(["param", param, variant] + words, ' ') + ending) == Some(Directive(Param, [param, variant] + words))
  {
    WordsCons(variant, words);
    WordsCons(param, [variant] + words);
    Regroup2(param, variant, words);
    Regroup3("param", param, variant, words);
    KeywordsAreWords();
    KeywordLine("param", [param, variant] + words, ending);
  }

  /** `raw <name> <words>` registers a window whose command is exactly its
      words joined by single spaces. */
  lemma RawLine(job: string, stamp: string, st: State, name: string, words: seq<string>, ending: string)
    requires IsWord(name) && forall i :: 0 <= i < |words| ==> IsWord(words[i])
    requires AllSpace(ending)
    ensures Step(job, stamp, st, Join(["raw", name] + words, ' ') + ending)
              == AddWindow(job, st, name, Join(words, ' '))
  {
    RawDecode(name, words, ending);
    StepRaw(job, stamp, st, Join(["raw", name] + words, ' ') + ending, name, words);
  }

  lemma RawDecode(name: string, words: seq<string>, ending: string)
    requires IsWord(name) && forall i :: 0 <= i < |words| ==> IsWord(words[i])
    requires AllSpace(ending)
    ensures Decode(Join(["raw", name] + words, ' ') + ending) == Some(Directive(Raw, [name] + words))
  {
    WordsCons(name, words);
    Regroup2("raw", name, words);
    KeywordsAreWords();
    KeywordLine("raw", [name] + words, ending);
  }

  /** `shared <words>` appends `' ' + words` to the global shared text. */
  lemma SharedLine(job: string, stamp: string, st: State, words: seq<string>, ending: string)
    requires forall i :: 0 <= i < |words| ==> IsWord(words[i])
    requires AllSpace(ending)
    ensures Step(job, stamp, st, Join(["shared"] + words, ' ') + ending)
              == Ok(AppendSharedGlobal(st, Join(words, ' ')))
  {
    KeywordsAreWords();
    KeywordLine("shared", words, ending);
    ExecShared(job, stamp, st, words);
  }

  /** `shared(<key>) <words>` sets the key's fragment to the words joined by
      single spaces, overwriting an earlier one in place. */
  lemma SharedKeyedLine(job: string, stamp: string, st: State, key: string, words: seq<string>, ending: string)
    requires IsWord(key) && '(' !in key && ')' !in key
    requires forall i :: 0 <= i < |words| ==> IsWord(words[i])
    requires AllSpace(ending)
    ensures Step(job, stamp, st, Join(["shared(" + key + ")"] + words, ' ') + ending)
              == Ok(SetSharedLocal(st, key, Join(words, ' ')))
  {
    var word := "shared(" + key + ")";
    BracketedWord(key);
    KeywordLine(word, words, ending);
    ExecSharedKeyed(job, stamp, st, word, words);
  }

  /** `shared(<key>)` is a word that classifies as keyed and names `key`. */
  lemma BracketedWord(key: string)
    requires IsWord(key) && '(' !in key && ')' !in key
    ensures var word := "shared(" + key + ")";
      && IsWord(word) && Classify(word) == SharedKeyed(word)
      && '(' in word && SharedKey(word) == Ok(key)
  {
    BracketedKey(key);
    BracketedIsWord(key);
    BracketedClassify(key);
  }

  lemma BracketedKey(key: string)
    requires IsWord(key) && '(' !in key && ')' !in key
    ensures var word := "shared(" + key + ")"; '(' in word && SharedKey(word) == Ok(key)
  {
    var word := "shared(" + key + ")";
    assert word == "shared" + "(" + key + ")" + "";
    SharedKeyOfBrackets("shared", key, "");
  }

  lemma BracketedIsWord(key: string)
    requires IsWord(key)
    ensures IsWord("shared(" + key + ")")
  {
    KeywordsAreWords();
    WordConcat("shared(", key);
    WordConcat("shared(" + key, ")");
  }

  lemma BracketedClassify(key: string)
    ensures var word := "shared(" + key + ")"; Classify(word) == SharedKeyed(word)
  {
    var word := "shared(" + key + ")";
    assert word[..6] == "shared" && word[6] == '(';
  }

  /** A `run` (or `vprof`) line of `param=variant` tokens is the composed
      window of those tokens. */
  lemma RunLine(job: string, stamp: string, st: State, tokens: seq<string>, profiled: bool, ending: string)
    requires forall i :: 0 <= i < |tokens| ==> IsWord(tokens[i])
    requires AllSpace(ending)
    ensures Step(job, stamp, st, Join([if profiled then "vprof" else "run"] + tokens, ' ') + ending)
              == RunWindow(job, stamp, st, tokens, profiled)
  {
    var keyword := if profiled then "vprof" else "run";
    KeywordsAreWords();
    assert Classify(keyword) == if profiled then Vprof else Run;
    KeywordLine(keyword, tokens, ending);
    ExecRun(job, stamp, st, tokens, profiled);
  }
}
