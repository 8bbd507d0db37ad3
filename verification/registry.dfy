/** `search_jobnames`: the job a command-line argument refers to, given the
    names of the job files ordered by modification time, oldest first. */
module Registry {
  import opened Results
  import opened Text

  /** Python's `xs[i]`, where a negative `i` counts from the end; `None`
      stands for the `IndexError` it raises out of range. */
  function PyIndex<T>(xs: seq<T>, i: int): (r: Option<T>)
    ensures r.Some? <==> -|xs| <= i < |xs|
    ensures r.Some? ==> r.value == xs[if i < 0 then |xs| + i else i]
  {
    if 0 <= i < |xs| then Some(xs[i])
    else if -|xs| <= i < 0 then Some(xs[|xs| + i])
    else None
  }

  /** What the search hands back as written: a job name, or one of the
      booleans of the prefix branch. */
  datatype Found = Name(name: string) | Flag(flag: bool)

  /** Why no job is found; each ends the program. */
  datatype SearchError =
    | NoSuchRank(query: string)                        // the `IndexError` of a numeric id
    | NotFound(query: string)
    | AmbiguousFlags(query: string, flags: seq<bool>)
    | AmbiguousNames(query: string, names: seq<string>)

  /** `[j.startswith(job_name) for j in jobnames]`: one flag per job. */
  function StartFlags(names: seq<string>, query: string): (flags: seq<bool>)
    ensures |flags| == |names|
    ensures forall i :: 0 <= i < |names| ==> flags[i] == (query <= names[i])
  {
    seq(|names|, i requires 0 <= i < |names| => query <= names[i])
  }

  /** `search_jobnames` as written. A numeric id `n` is `names[-n]`, so `0`
      is the oldest job; otherwise an exact name is returned, and otherwise
      the list of flags decides: one job (whatever its name) gives its flag,
      several give an ambiguity, whatever the prefix matches. */
  function SearchJobNames(names: seq<string>, query: string): (r: Result<Found, SearchError>)
    ensures IsDigits(query) ==> (r.Ok? <==> DecimalValue(query) <= |names| && |names| > 0)
    ensures IsDigits(query) && r.Ok? ==>
              r.value == Name(names[if DecimalValue(query) == 0 then 0 else |names| - DecimalValue(query)])
    ensures !IsDigits(query) && query in names ==> r == Ok(Name(query))
    ensures !IsDigits(query) && query !in names ==> (r.Ok? <==> |names| == 1)
    ensures !IsDigits(query) && query !in names && r.Ok? ==> r.value == Flag(query <= names[0])
    ensures !IsDigits(query) && query !in names && |names| > 1 ==>
              r == Err(AmbiguousFlags(query, StartFlags(names, query)))
  {
    if IsDigits(query) then
      match PyIndex(names, -(DecimalValue(query) as int))
      case None => Err(NoSuchRank(query))
      case Some(name) => Ok(Name(name))
    else if query in names then Ok(Name(query))
    else
      var possible := StartFlags(names, query);
      if |possible| == 0 then Err(NotFound(query))
      else if |possible| == 1 then Ok(Flag(possible[0]))
      else Err(AmbiguousFlags(query, possible))
  }

  /** The search as intended: a numeric id `n` from 1 on is the `n`-th most
      recent job; otherwise an exact name is returned, and otherwise the one
      job whose name starts with the query, if there is exactly one. */
  function ResolveJob(names: seq<string>, query: string): (r: Result<string, SearchError>)
    ensures r.Ok? ==> r.value in names
    ensures IsDigits(query) ==> (r.Ok? <==> 1 <= DecimalValue(query) <= |names|)
    ensures IsDigits(query) && r.Ok? ==> r.value == names[|names| - DecimalValue(query)]
    ensures IsDigits(query) && r.Err? ==> r.error == NoSuchRank(query)
    ensures !IsDigits(query) && query in names ==> r == Ok(query)
    ensures !IsDigits(query) && query !in names ==> (r.Ok? <==> |StartingWith(names, query)| == 1)
    ensures !IsDigits(query) && query !in names && r.Ok? ==>
              query <= r.value && forall x | x in names && query <= x :: x == r.value
    ensures !IsDigits(query) && query !in names && |StartingWith(names, query)| == 0 ==>
              r == Err(NotFound(query))
    ensures !IsDigits(query) && query !in names && |StartingWith(names, query)| > 1 ==>
              r == Err(AmbiguousNames(query, StartingWith(names, query)))
  {
    if IsDigits(query) then
      var n := DecimalValue(query);
      if 1 <= n <= |names| then Ok(names[|names| - n]) else Err(NoSuchRank(query))
    else if query in names then Ok(query)
    else
      var possible := StartingWith(names, query);
      if |possible| == 0 then Err(NotFound(query))
      else if |possible| == 1 then
        OnlyStartingWith(names, query);
        Ok(possible[0])
      else Err(AmbiguousNames(query, possible))
  }

  /** The `n`-th most recent job is found by its rank written in decimal. */
  lemma RankLookup(names: seq<string>, n: nat)
    requires 1 <= n <= |names|
    ensures ResolveJob(names, DecimalString(n)) == Ok(names[|names| - n])
  {
    DecimalRoundTrip(n);
  }

  /** Where the query is a rank from 1 on or a full job name, the search as
      written finds the job the intended search finds. */
  lemma AsWrittenAgrees(names: seq<string>, query: string)
    requires IsDigits(query) ==> 1 <= DecimalValue(query) <= |names|
    requires !IsDigits(query) ==> query in names
    ensures SearchJobNames(names, query) == Ok(Name(ResolveJob(names, query).value))
  {
  }

  /** Where the query abbreviates exactly one job, the search as written
      never returns that job's name. */
  lemma AsWrittenMissesAbbreviations(names: seq<string>, query: string)
    requires !IsDigits(query) && query !in names && ResolveJob(names, query).Ok?
    ensures SearchJobNames(names, query) != Ok(Name(ResolveJob(names, query).value))
  {
  }

  /** `night` abbreviates the one job `nightly`, and the search as written
      returns `True` in place of its name. */
  lemma FlagInsteadOfName()
    ensures SearchJobNames(["nightly"], "night") == Ok(Flag(true))
    ensures ResolveJob(["nightly"], "night") == Ok("nightly")
  {
    assert "nightly"[..5] == "night";
    assert !IsDigits("night") by { assert !('0' <= "night"[0] <= '9'); }
  }

  /** With one job that `night` does not abbreviate at all, the search as
      written still succeeds, with `False`. */
  lemma FlagForNonMatch()
    ensures SearchJobNames(["sweep"], "night") == Ok(Flag(false))
    ensures ResolveJob(["sweep"], "night") == Err(NotFound("night"))
  {
    assert "night"[0] != "sweep"[0];
    assert !IsDigits("night") by { assert !('0' <= "night"[0] <= '9'); }
  }

  /** With two jobs, of which only `nightly` starts with `night`, the search
      as written reports an ambiguity. */
  lemma UniqueAbbreviationRejected()
    ensures SearchJobNames(["nightly", "sweep"], "night") == Err(AmbiguousFlags("night", [true, false]))
    ensures ResolveJob(["nightly", "sweep"], "night") == Ok("nightly")
  {
    assert "nightly"[..5] == "night";
    assert "night"[0] != "sweep"[0];
    assert !IsDigits("night") by { assert !('0' <= "night"[0] <= '9'); }
    assert StartFlags(["nightly", "sweep"], "night") == [true, false];
  }

  /** `0` selects the oldest job, `names[-0] == names[0]`, rather than
      being refused as ranks counting from 1 are. */
  lemma ZeroIsOldest()
    ensures SearchJobNames(["a", "b", "c"], "0") == Ok(Name("a"))
    ensures ResolveJob(["a", "b", "c"], "0") == Err(NoSuchRank("0"))
  {
    assert IsDigits("0") && DecimalValue("0") == 0;
  }
}
