/** What the handlers of a serial executor share: names for coroutines, and error codes. */
module Executor {
  type Id = nat

  datatype ErrorCode = NoError | TimedOut | OperationAborted | OtherError(number: int)

  predicate Distinct<T(==)>(ids: seq<T>) {
    forall i, j :: 0 <= i < j < |ids| ==> ids[i] != ids[j]
  }

  lemma RemovedKeeps<T>(ids: seq<T>, k: nat, id: T)
    requires k < |ids| && id in ids
    ensures id == ids[k] || id in ids[..k] + ids[k + 1..]
  {
    var i :| 0 <= i < |ids| && ids[i] == id;
    var rest := ids[..k] + ids[k + 1..];
    assert i < k ==> rest[i] == id;
    assert i > k ==> rest[i - 1] == id;
  }
}
