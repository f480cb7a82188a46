/**
 * The controller's two persisted record shapes. A registration belongs to a
 * node (referenced here by the node's name) and is meant to be unique per
 * (node, name) pair; a run-info record references one registration.
 */
module Tables {
  import opened Values

  /** The state a registration gets when none is supplied. */
  const DefaultState: string := "pending"

  /** One row of the task registry. `name`, `endpoint` and `taskType` (the `type` column) hold the
      values the registering payload carried. */
  datatype TaskRegister = TaskRegister(node: string, name: Value, state: string, endpoint: Value, taskType: Value)

  /** The (node, name) pair a registration is keyed by. */
  type RegisterKey = (string, Value)

  function KeyOf(r: TaskRegister): RegisterKey
  {
    (r.node, r.name)
  }

  /** Information about one run of a task; `info` may be null. */
  datatype TaskInfo = TaskInfo(task: RegisterKey, info: Value)

  /** A table of registrations in which no (node, name) pair occurs twice. */
  ghost predicate RowsUnique(rows: seq<TaskRegister>)
  {
    forall i, j :: 0 <= i < j < |rows| ==> KeyOf(rows[i]) != KeyOf(rows[j])
  }

  /** A keyed registry whose every record sits under its own (node, name) key. */
  ghost predicate KeyedByPair(store: map<RegisterKey, TaskRegister>)
  {
    forall k :: k in store ==> KeyOf(store[k]) == k
  }

  /** A registry keyed by pair holds at most one record per (node, name). */
  lemma {:induction false} KeyedStoreIsUniquePerPair(store: map<RegisterKey, TaskRegister>)
    requires KeyedByPair(store)
    ensures forall r1, r2 :: r1 in store.Values && r2 in store.Values && KeyOf(r1) == KeyOf(r2) ==> r1 == r2
  {
    forall r1, r2 | r1 in store.Values && r2 in store.Values && KeyOf(r1) == KeyOf(r2)
      ensures r1 == r2
    {
      var k1 :| k1 in store && store[k1] == r1;
      var k2 :| k2 in store && store[k2] == r2;
      assert k1 == KeyOf(r1) == KeyOf(r2) == k2;
    }
  }
}
