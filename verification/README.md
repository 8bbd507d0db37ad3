# job: a model of the job-file interpreter and the command-line front end

`job` is a command-line tool that runs a "job" as a tmux session. A job is a
plain-text file with one directive per line:
- `param <name> <variant> <words>` declares a variant of a parameter and the
  command fragment it selects;
- `shared <words>` and `shared(<key>) <words>` declare text added to every
  run;
- `raw <window> <words>` opens a window that runs the words literally;
- `run`/`vprof <param>=<variant> ...` opens a window named after the selected
  variants, whose command is composed from the base command, the job's
  process tag, the shared text and the selected fragments.

This project models the core of `src/job.py`:
- the `JobParser` interpreter (`parse`, `add_param`, `add_window`,
  `get_shared`, `parse_variants`) and the process tag (`processidentifier`);
- the resolution of the mode argument (any unique prefix of a mode names
  it) and the check of the number of arguments each mode accepts;
- `search_jobnames`, which maps a command-line job argument to a job file
  name.

All of these are pure functions over immutable data:
- `Text` — the Python string primitives the code uses: `strip`, `split`,
  `join`, `index`, `startswith`, `isdigit`, `int`.
- `Tagger` — the process tag and a reader that recovers the job from it.
- `JobState` — the parser's tables and the operations that update them.
- `Variants` — `parse_variants` and the composed `run`/`vprof` command.
- `JobParser` — line decoding, directive dispatch, and `Parse` as a left
  fold of `Step` over the lines.
- `ParseFacts` — whole-file properties of `Parse` and the meaning of each
  kind of line.
- `ParseExamples` — concrete files, among them a two-variant sweep.
- `Cli` — the mode table, abbreviation, and the argument-count check.
- `Registry` — `search_jobnames` as written, and the intended search.

An error exit (`self.error`, `die`, or an exception the parser turns into
an error) is an `Err` value. Parse errors carry the 1-based line number and
the raw line, as the message of `error` does.

At these points the model follows what `src/job.py` does, which may surprise
a reader of the directive list above:
- The composed command places the shared text *before* the selected
  fragments (`{shared} {from_params}`), not after them.
- A `raw` window with no command words gets the empty command `''`, not
  "no command".
- Every first word that starts with `shared` is a `shared` directive,
  `sharedX` included. It is keyed when it contains `(`. A missing `)` makes
  `mode.index(')')` raise, and the line is rejected.
- `get_shared` puts the keyed fragments, in first-insertion order, before
  the global shared text.

## Model

| member | source | states |
|---|---|---|
| Tagger.ProcessTag | src/job.py:108-109 | the tag holds the job name verbatim right after `job_id=`, and reading the tag back gives the job, so distinct jobs get distinct tags |
| Text.Strip | src/job.py:266 | the stripped line is a slice of the line with only whitespace before and after it; it starts and ends with a non-whitespace character, it is empty exactly when the line is all whitespace, and a line without surrounding whitespace is unchanged |
| Text.Tokens | src/job.py:272 | the words of a line are non-empty and contain no space; a line that starts with a non-space has at least one word |
| Text.TokensSpaced | src/job.py:272 | space-free words laid out with any number of leading and trailing spaces and one or more spaces between neighbours tokenise to exactly those words, in order |
| Text.TokensSpaces | src/job.py:272 | leading spaces add no words |
| Text.TokensWord | src/job.py:272 | a space-free word followed by one or more spaces is the first word, and the words after it are those of the rest |
| Text.JoinPlaces | src/job.py:279 | `' '.join` puts part `i` at its offset (the lengths of the earlier parts plus one separator each) and one separator after every part but the last |
| Text.JoinLength | src/job.py:279 | the joined text is exactly as long as the parts plus one separator between each pair, so with the placement above every character is fixed |
| Text.IndexOf | src/job.py:286 | `index` gives a position holding the character, with no earlier occurrence |
| Text.IndexOfUnique | src/job.py:286 | the first occurrence is the only position that `index` can return |
| Text.TokensJoin | src/job.py:272 | splitting words joined by single spaces, then dropping empty pieces, gives back exactly those words |
| Text.StripPadding | src/job.py:264-266 | any whitespace line ending is removed by `strip`, and the text before it is kept |
| Text.Split | src/job.py:247 | `split('=')` returns at least one piece, no piece contains the separator, and joining the pieces restores the text |
| Text.SplitJoin | src/job.py:247 | splitting a join of separator-free pieces restores the pieces |
| Text.DecimalRoundTrip | src/job.py:335-337 | `int(str(n)) == n` for every natural number |
| JobState.AddParam | src/job.py:230-233 | fails with a duplicate-variant error exactly when the pair is already declared; otherwise adds exactly that variant with its fragment, keeps every other parameter and variant, and leaves the other tables alone |
| JobState.AddWindow | src/job.py:223-228 | fails when the name is taken (checked first) or starts with the job name; otherwise appends the window last and changes nothing else |
| JobState.Put | src/job.py:287 | assigning a key of the insertion-ordered table maps it to the new fragment, keeps the other keys' fragments, and keeps the key order (a new key goes last) |
| JobState.SetSharedLocal | src/job.py:285-287 | `shared(<key>)` maps the key to the fragment, keeps every other key's fragment, keeps the keys distinct, and leaves the other tables alone |
| JobState.AppendSharedGlobal | src/job.py:288-289 | plain `shared` extends the global shared text by exactly a space and the fragment, at its end |
| JobState.SharedText | src/job.py:234-235 | `get_shared` places each keyed fragment at its join offset, in key order, with a space after every fragment but the last; the global shared text ends the result; and its length is the fragments', their separating spaces' and the global text's, so nothing else is added |
| JobParser.Classify | src/job.py:274-312 | the dispatch order: `param`, any word starting with `shared` (keyed exactly when it contains `(`), `raw`, `run`, `vprof`, else unknown; the keyword keeps its word |
| JobParser.Decode | src/job.py:264-272 | blank and `#` lines (after stripping) are skipped; any other line becomes its classified first word and the remaining words, with no word lost |
| JobParser.SharedKey | src/job.py:285-286 | a keyed `shared` word without `)` is rejected, and a word with one yields a key |
| JobParser.SharedKeyOfBrackets | src/job.py:285-286 | for `shared(<key>)...` the key is the stripped text between the brackets |
| JobParser.AddParamKeepsValid | src/job.py:230-233 | a successful `add_param` keeps every declared parameter non-empty |
| JobParser.AppendKeepsValid | src/job.py:223-228 | a window that passes both checks of `add_window` keeps the window names distinct and free of the job-name prefix |
| JobParser.Exec | src/job.py:274-312 | unknown keywords, `param` with fewer than two arguments, and `raw` without a name are rejected; a successful directive keeps the tables valid, only adds windows and variants, and changes the global shared text only for plain `shared` |
| JobParser.RunStep | src/job.py:300-309 | `run`/`vprof` keep the tables valid, only add a window, and leave the shared text alone |
| JobParser.Step | src/job.py:264-313 | a skipped line leaves the tables alone; any other line is its directive executed; an accepted line keeps the tables valid and only adds |
| JobParser.Parse | src/job.py:257-316 | an accepted file yields valid tables; a rejected file reports a line number inside the file and that line's raw text |
| ParseFacts.ParseStopsAtFirstError | src/job.py:264-312 | a rejected file is accepted up to the reported line, and that line is rejected in the state the earlier lines produced |
| ParseFacts.ParseSnoc | src/job.py:264 | one more line is accepted exactly when the earlier lines are and the line is accepted in their state, and then it yields that step's state |
| ParseFacts.ParsePrefix | src/job.py:264-312 | every prefix of an accepted file is accepted, and the rest of the file only appends windows and adds variants |
| ParseFacts.SharedGlobalAccumulates | src/job.py:283-290 | the global shared text of an accepted file is the concatenation, in file order, of `' ' + words` over its plain `shared` lines |
| ParseFacts.StepSharedGlobal | src/job.py:283-290 | an accepted line adds exactly its own contribution to the global shared text |
| ParseFacts.RawOnlyFiles | src/job.py:292-298 | a file of `raw`, blank and comment lines is accepted exactly when its window names are distinct and none starts with the job name; its windows are then the declared ones, in order, with their literal commands |
| ParseFacts.RawSnoc | src/job.py:292-298 | one more `raw` (or skipped) line after acceptable windows is accepted exactly when the extended window list is acceptable |
| ParseFacts.AcceptableSnoc | src/job.py:223-228 | a window list extended by one window passes the two `add_window` checks exactly when the list did and the new name is fresh and free of the job-name prefix |
| ParseFacts.KeywordLine | src/job.py:266-272 | a keyword followed by argument words, with any whitespace line ending, decodes to that keyword's directive on exactly those arguments |
| ParseFacts.ParamLine | src/job.py:274-281 | `param <name> <variant> <words>` is `add_param` with the words joined by single spaces |
| ParseFacts.RawLine | src/job.py:292-298 | `raw <name> <words>` is `add_window` with the words joined by single spaces |
| ParseFacts.SharedLine | src/job.py:283-290 | `shared <words>` appends `' ' + words` to the global shared text |
| ParseFacts.SharedKeyedLine | src/job.py:283-290 | `shared(<key>) <words>` sets that key's fragment to the words |
| ParseFacts.RunLine | src/job.py:300-309 | a `run` or `vprof` line of tokens opens the composed window of those tokens |
| Variants.SplitAtEquals | src/job.py:247 | `arg.split('=')` unpacks into two parts exactly when the token has one `=`, and the parts are the text before and after it |
| Variants.ResolveToken | src/job.py:244-253 | a token resolves exactly when it has one `=` and names a declared variant, and then gives that variant and its fragment; the four failures are reported in the source's order |
| Variants.FirstToken | src/job.py:244-253 | the token loop splits off its first token: all tokens resolve exactly when the first does and the rest do, and the first failure is the first token's or the rest's |
| Variants.ParseVariantsFrom | src/job.py:241-255 | the loop, from any point on, succeeds exactly when every remaining token resolves; the run name and fragments then extend what has been accumulated, and otherwise the error is the first bad token's |
| Variants.ParseVariants | src/job.py:241-255 | succeeds exactly when every token resolves; the run name is the variants joined by `.` and the fragment text is `' ' + fragment` per token, both in token order; otherwise the error is the first bad token's |
| Variants.RunCommand | src/job.py:302-307 | the command contains, in one piece, `bin/matt.py job_name=<job> run_name=<run> ` followed by the process tag, the shared text and the fragments; it starts with `![python ` for `run` and `![vprof -c cp "` for `vprof`, and ends with `job_info=<stamp>.<job>.<run>` followed by `]` or `" --output-file profile.json]` |
| Variants.RunWindow | src/job.py:300-309 | a `run` line fails exactly when a token does not resolve or the run name is taken or starts with the job name; otherwise it appends exactly one window, named after the run, whose command uses the shared text as it stands at that line |
| ParseExamples.ParseOne | src/job.py:264 | a one-line file is that line's step from the empty tables, with errors reported at line 1 |
| ParseExamples.ParseTwo | src/job.py:264 | a two-line file is the second line's step after the first's, with errors reported at line 2 |
| ParseExamples.DuplicateVariantRejected | src/job.py:230-232 | declaring the same variant twice rejects the second declaration, at line 2 |
| ParseExamples.UndeclaredParamRejected | src/job.py:248-249 | a run token naming an undeclared parameter is rejected with that parameter and token |
| ParseExamples.ParseNext | src/job.py:264 | an accepted line after an accepted prefix extends the parse by that line |
| ParseExamples.SweepParses | src/job.py:257-316 | a sweep of two `lr` variants with one run each parses, under any whitespace line ending, to windows `low` and `high`, in file order, each with its composed command, which carries the job's process tag and its variant's fragment (`lr=0.01`, `lr=0.1`) |
| Cli.Scan | src/job.py:73-78 | the abbreviation loop stops at the second mode that starts with the argument, naming both; otherwise it yields the single match, or none |
| Cli.ResolveMode | src/job.py:70-81 | a full mode is kept; otherwise the result is the one mode the argument prefixes; it is unknown when no mode matches, and ambiguous (naming the first two matches in table order) when several do |
| Cli.CountsOf | src/job.py:84 | `modes[mode]` is the count list of the table entry with that name |
| Cli.ResolveCommand | src/job.py:83-85 | the command line is accepted exactly when the mode resolves and the number of remaining arguments is one that mode accepts; otherwise the mode error, or the bad count, is reported |
| Cli.AbbreviationAmbiguous | src/job.py:30-42 | `d` is rejected as ambiguous between `diff` and `del` |
| Cli.AbbreviationUnique | src/job.py:30-42 | `ru` resolves to `run` |
| Cli.AbbreviationUnknown | src/job.py:79-80 | `x` is not a mode or an abbreviation |
| Cli.ArgCountChecked | src/job.py:84-85 | `di` resolves to `diff`, which refuses one argument and accepts two |
| Registry.PyIndex | src/job.py:337 | Python indexing: defined exactly for `-len <= i < len`, with a negative index counting from the end |
| Registry.StartFlags | src/job.py:341 | the list built at line 341 holds one Boolean per job, in job order, true exactly when that job's name starts with the query; it holds flags, not names |
| Registry.SearchJobNames | src/job.py:334-347 | as written: a numeric id `n` is `names[-n]`, an exact name is returned, and otherwise one job gives its `startswith` flag and several are ambiguous, whatever they match |
| Registry.ResolveJob | src/job.py:334-347 | as intended: id `n` from 1 is the `n`-th most recent job; an exact name is returned; otherwise the one job the query prefixes, with not-found and ambiguous cases; every result is a job name |
| Registry.RankLookup | src/job.py:335-337 | the `n`-th most recent job is found by its rank written in decimal |
| Registry.AsWrittenAgrees | src/job.py:334-340 | for ranks from 1 and for full names, the search as written finds the job the intended search finds |
| Registry.AsWrittenMissesAbbreviations | src/job.py:341-345 | where the query abbreviates exactly one job, the search as written never returns that job's name |
| Registry.FlagInsteadOfName | src/job.py:341-345 | `night` with the single job `nightly` yields `True` as written, and `nightly` as intended |
| Registry.FlagForNonMatch | src/job.py:341-345 | `night` with the single job `sweep` yields `False` as written, and not-found as intended |
| Registry.UniqueAbbreviationRejected | src/job.py:341-347 | `night` with the jobs `nightly` and `sweep` is ambiguous as written, though only `nightly` matches |
| Registry.ZeroIsOldest | src/job.py:337 | the id `0` selects the oldest job as written, and is refused as intended |

## Left out

- The tmux session handling is left out: `libtmux`, `launch_window`, `start`, `--force` and `--first`. The model stops at the list of windows and their commands.
- Process lookup and killing (`pgrep`, `pkill`), `replace_self`/`execvp` and the editor invocations are left out. They are foreign calls; only the tag they search for is modelled.
- The filesystem is left out: `jobs_dir`, `iterdir`, `stat().st_mtime`, the trash directory, and reading the job file. The sorted job names and the lines of the file (each with its line ending) are inputs.
- The modes' actions (`new`, `edit`, `ls`, `diff`, `mv`, `cp`, `del`, `file`, `view`, `kill`) are left out. They are file and process operations over the inputs above.
- `argparse` is left out. The mode string and the argument count are inputs.
- The timestamp `time_str` is the parameter `stamp`, because it is a clock reading.
- Printing and colouring (`mlb.red`, `print`) are left out. An error's content is kept in the `Err` value.
- Registry.SearchJobNames: only ASCII digit strings are numeric ids. A query of other Unicode digits, such as `٣` or `²`, is treated as a name here, where Python would index with it (`٣`) or raise `ValueError` from `int` (`²`).

## Findings

| source | as written | input that shows it | evidently intended | confidence | as-written member | corrected member |
|---|---|---|---|---|---|---|
| src/job.py:341 | `possible` holds the booleans `j.startswith(job_name)`, one per job, so one job returns its flag and two or more are always "ambiguous" | jobs `["nightly"]`, query `night` returns `True`; jobs `["nightly", "sweep"]` with query `night` is reported ambiguous | the names of the jobs that start with the query | high, not executed | Registry.SearchJobNames, Registry.FlagInsteadOfName, Registry.UniqueAbbreviationRejected | Registry.ResolveJob |
| src/job.py:337 | `sorted_jobfiles()[-int(job_name)]` with `0` is index `0`, the oldest job, while `n >= 1` is the `n`-th most recent | jobs `["a", "b", "c"]`, query `0` returns `a` | ranks counting from 1, with `0` refused | medium, not executed | Registry.SearchJobNames, Registry.ZeroIsOldest | Registry.ResolveJob, Registry.RankLookup |
