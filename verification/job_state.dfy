/** The parser's tables (the fields of `JobParser`) and the operations that
    update them: `add_param`, `add_window`, the two `shared` forms and
    `get_shared`. */
module JobState {
  import opened Results
  import opened Text

  /** One window of the session: its name and the command typed into it
      (possibly empty). */
  datatype Window = Window(name: string, command: string)

  /** param -> variant -> command fragment. */
  type ParamTable = map<string, map<string, string>>

  /** key -> fragment for `shared(<key>)`, in first-insertion order (a
      Python dict keeps a key where it was first inserted). */
  type SharedTable = seq<(string, string)>

  /** Everything the parser has accumulated after some lines of the file. */
  datatype State = State(
    params: ParamTable,
    sharedLocal: SharedTable,
    sharedGlobal: string,
    windows: seq<Window>)

  const Initial: State := State(map[], [], "", [])

  /** Why a line of a job file is rejected. */
  datatype ErrorKind =
    | ParamArity                                  // `param` with fewer than two arguments
    | DuplicateVariant(param: string, variant: string)
    | SharedKeyUnclosed(keyword: string)          // `shared(` without `)`
    | RawMissingName
    | MissingEquals(arg: string)
    | MalformedToken(arg: string)                 // more than one `=`
    | UnknownParam(param: string, arg: string)
    | UnknownVariant(param: string, variant: string, arg: string)
    | DuplicateWindow(name: string)
    | WindowStartsWithJob(name: string, job: string)
    | UnrecognizedCommand(keyword: string)

  function Names(ws: seq<Window>): (names: seq<string>)
    ensures |names| == |ws|
    ensures forall i :: 0 <= i < |ws| ==> names[i] == ws[i].name
  {
    seq(|ws|, i requires 0 <= i < |ws| => ws[i].name)
  }

  predicate Distinct(xs: seq<string>) {
    forall i, j :: 0 <= i < j < |xs| ==> xs[i] != xs[j]
  }

  predicate Declared(params: ParamTable, param: string, variant: string) {
    param in params && variant in params[param]
  }

  /** The variants declared for `param` so far (none when it is new). */
  function VariantsOf(params: ParamTable, param: string): map<string, string> {
    if param in params then params[param] else map[]
  }

  /** Every entry of `m` is still in `m'`, with the same value. */
  predicate Extends(m: map<string, string>, m': map<string, string>) {
    forall v | v in m :: v in m' && m'[v] == m[v]
  }

  function Keys(entries: SharedTable): seq<string>
  {
    if |entries| == 0 then [] else [entries[0].0] + Keys(entries[1..])
  }

  function Values(entries: SharedTable): (r: seq<string>)
    ensures |r| == |entries|
  {
    if |entries| == 0 then [] else [entries[0].1] + Values(entries[1..])
  }

  /** The fragment stored under `key`, if any. */
  function Lookup(entries: SharedTable, key: string): Option<string>
  {
    if |entries| == 0 then None
    else if entries[0].0 == key then Some(entries[0].1)
    else Lookup(entries[1..], key)
  }

  /** Window names a job may use: pairwise distinct, none starting with the
      job name. */
  predicate Acceptable(job: string, ws: seq<Window>) {
    && Distinct(Names(ws))
    && forall i :: 0 <= i < |ws| ==> !(job <= ws[i].name)
  }

  /** What every parsed job keeps true: window names are unique and none
      starts with the job name, shared keys are unique, and a declared
      parameter has at least one variant. */
  predicate Valid(job: string, st: State) {
    && Acceptable(job, st.windows)
    && Distinct(Keys(st.sharedLocal))
    && (forall p :: p in st.params ==> |st.params[p]| > 0)
  }

  /** `add_param`: fails exactly when the (param, variant) pair is already
      declared; otherwise that one entry is added and every other entry, and
      every other field, is unchanged. */
  function AddParam(st: State, param: string, variant: string, fragment: string): (r: Result<State, ErrorKind>)
    ensures r.Err? <==> Declared(st.params, param, variant)
    ensures r.Err? ==> r.error == DuplicateVariant(param, variant)
    ensures r.Ok? ==> r.value.params.Keys == st.params.Keys + {param}
    ensures r.Ok? ==> param in r.value.params
    ensures r.Ok? ==> r.value.params[param].Keys == VariantsOf(st.params, param).Keys + {variant}
    ensures r.Ok? ==> r.value.params[param][variant] == fragment
    ensures r.Ok? ==> Extends(VariantsOf(st.params, param), r.value.params[param])
    ensures r.Ok? ==> forall p | p in st.params && p != param :: r.value.params[p] == st.params[p]
    ensures r.Ok? ==> r.value.(params := st.params) == st
  {
    if param in st.params && variant in st.params[param] then
      Err(DuplicateVariant(param, variant))
    else
      var variants := VariantsOf(st.params, param);
      Ok(st.(params := st.params[param := variants[variant := fragment]]))
  }

  /** `add_window`: fails when the name is already a window (checked first)
      or starts with the job name; otherwise appends the window at the end,
      keeping the earlier windows and every other field. */
  function AddWindow(job: string, st: State, name: string, command: string): (r: Result<State, ErrorKind>)
    ensures r.Err? <==> name in Names(st.windows) || job <= name
    ensures name in Names(st.windows) ==> r == Err(DuplicateWindow(name))
    ensures name !in Names(st.windows) && job <= name ==> r == Err(WindowStartsWithJob(name, job))
    ensures r.Ok? ==> r.value.windows == st.windows + [Window(name, command)]
    ensures r.Ok? ==> r.value.(windows := st.windows) == st
  {
    if name in Names(st.windows) then Err(DuplicateWindow(name))
    else if job <= name then Err(WindowStartsWithJob(name, job))
    else Ok(st.(windows := st.windows + [Window(name, command)]))
  }

  /** `shared_local[key] = fragment`: the key now maps to the fragment, the
      other keys keep their fragments, and the key order is unchanged when
      the key was present (it is appended otherwise). */
  function Put(entries: SharedTable, key: string, fragment: string): (r: SharedTable)
    ensures Keys(r) == if key in Keys(entries) then Keys(entries) else Keys(entries) + [key]
    ensures Lookup(r, key) == Some(fragment)
    ensures forall k :: k != key ==> Lookup(r, k) == Lookup(entries, k)
  {
    if |entries| == 0 then [(key, fragment)]
    else if entries[0].0 == key then [(key, fragment)] + entries[1..]
    else
      var rest := Put(entries[1..], key, fragment);
      assert ([entries[0]] + rest)[1..] == rest;
      [entries[0]] + rest
  }

  /** Adding a key keeps the keys distinct. */
  lemma PutKeepsDistinct(entries: SharedTable, key: string, fragment: string)
    ensures Distinct(Keys(entries)) ==> Distinct(Keys(Put(entries, key, fragment)))
  {
  }

  /** The `shared(<key>)` directive. */
  function SetSharedLocal(st: State, key: string, fragment: string): (r: State)
    ensures Lookup(r.sharedLocal, key) == Some(fragment)
    ensures forall k :: k != key ==> Lookup(r.sharedLocal, k) == Lookup(st.sharedLocal, k)
    ensures Distinct(Keys(st.sharedLocal)) ==> Distinct(Keys(r.sharedLocal))
    ensures r.(sharedLocal := st.sharedLocal) == st
  {
    PutKeepsDistinct(st.sharedLocal, key, fragment);
    st.(sharedLocal := Put(st.sharedLocal, key, fragment))
  }

  /** The plain `shared` directive: appends one space and the fragment, so
      the global shared text grows in file order. */
  function AppendSharedGlobal(st: State, fragment: string): (r: State)
    ensures |r.sharedGlobal| == |st.sharedGlobal| + 1 + |fragment|
    ensures st.sharedGlobal <= r.sharedGlobal
    ensures OccursAt(" " + fragment, r.sharedGlobal, |st.sharedGlobal|)
    ensures r.(sharedGlobal := st.sharedGlobal) == st
  {
    var text := st.sharedGlobal + " " + fragment;
    OccursBetween(st.sharedGlobal, " " + fragment, "");
    assert st.sharedGlobal + " " + fragment + "" == text;
    st.(sharedGlobal := text)
  }

  /** `get_shared`: the shared-local fragments joined by spaces, in key
      order, then the global shared text. Each fragment sits at its join
      offset, followed by one space unless it is the last; the global text
      ends the result; and nothing else is added. */
  function SharedText(st: State): (r: string)
    ensures forall i :: 0 <= i < |Values(st.sharedLocal)| ==>
      OccursAt(Values(st.sharedLocal)[i], r, JoinOffset(Values(st.sharedLocal), i))
    ensures forall i :: 0 <= i < |Values(st.sharedLocal)| - 1 ==>
      OccursAt(" ", r, JoinOffset(Values(st.sharedLocal), i) + |Values(st.sharedLocal)[i]|)
    ensures EndsWith(r, st.sharedGlobal)
    ensures |r| == (if st.sharedLocal == [] then 0 else JoinOffset(Values(st.sharedLocal), |st.sharedLocal|) - 1)
                   + |st.sharedGlobal|
  {
    JoinThen(Values(st.sharedLocal), ' ', st.sharedGlobal);
    Join(Values(st.sharedLocal), ' ') + st.sharedGlobal
  }
}
