/** Failure-compatible wrappers used throughout the model: the Python code's
    `die`/`self.error` exits and uncaught exceptions become `Err` values. */
module Results {

  /** A value that may be absent. */
  datatype Option<+T> = None | Some(value: T)

  /** Either a computed value or the error that stopped the computation;
      usable with `:-` so that the first error propagates unchanged. */
  datatype Result<+T, +E> = Ok(value: T) | Err(error: E) {

    predicate IsFailure() {
      Err?
    }

    function PropagateFailure<U>(): Result<U, E>
      requires Err?
    {
      Err(error)
    }

    function Extract(): T
      requires Ok?
    {
      value
    }
  }

  /** Every outcome is a success. */
  predicate AllOk<T, E>(rs: seq<Result<T, E>>) {
    forall i :: 0 <= i < |rs| ==> rs[i].Ok?
  }

  /** `e` is the error of the first failed outcome. */
  predicate FirstErr<T(==), E(==)>(rs: seq<Result<T, E>>, e: E) {
    exists i :: 0 <= i < |rs| && rs[i] == Err(e) && AllOk(rs[..i])
  }

  lemma AllOkCons<T, E>(rs: seq<Result<T, E>>)
    requires |rs| > 0
    ensures AllOk(rs) <==> rs[0].Ok? && AllOk(rs[1..])
  {
    if rs[0].Ok? && AllOk(rs[1..]) {
      forall i | 0 < i < |rs|
        ensures rs[i].Ok?
      {
        assert rs[i] == rs[1..][i - 1];
      }
    }
  }

  lemma FirstErrHead<T, E>(rs: seq<Result<T, E>>)
    requires |rs| > 0 && rs[0].Err?
    ensures FirstErr(rs, rs[0].error)
  {
    assert AllOk(rs[..0]);
  }

  lemma FirstErrLater<T, E>(rs: seq<Result<T, E>>, e: E)
    requires |rs| > 0 && rs[0].Ok? && FirstErr(rs[1..], e)
    ensures FirstErr(rs, e)
  {
    var i :| 0 <= i < |rs[1..]| && rs[1..][i] == Err(e) && AllOk(rs[1..][..i]);
    assert rs[1..][..i] == rs[1..i + 1];
    AllOkCons(rs[..i + 1]);
    assert rs[..i + 1][1..] == rs[1..i + 1];
    assert rs[i + 1] == Err(e);
  }
}
