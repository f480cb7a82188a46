/**
 * The controller's task feature: the registration endpoint, the execution
 * endpoint and the helpers behind them, over the controller's registry. Each
 * handler is proved against the `Registry` function describing it. Calls
 * the controller queues for nodes are recorded, in order, in the ghost log
 * `dispatched`.
 */
module Feature {
  import opened Values
  import opened Tables
  import opened Registry

  class TaskFeature {
    var knownNodes: set<string>       // the nodes the controller knows, by name
    var store: Store                  // the task registry
    ghost var dispatched: seq<Dispatch>

    /** Every record sits under its own (node, name), so there is at most one
        record per pair. */
    ghost predicate Valid()
      reads this
    {
      KeyedByPair(store)
    }

    constructor (knownNodes: set<string>)
      ensures Valid()
      ensures this.knownNodes == knownNodes && store == map[] && dispatched == []
    {
      this.knownNodes := knownNodes;
      store := map[];
      dispatched := [];
    }

    /** `_register_task`: the record for the payload's (node, name) is created
        or brought up to date, under the lock, as one step. */
    method Register(payload: Value) returns (response: Result<Value>)
      requires Valid()
      modifies this`store
      ensures Valid()
      ensures Outcome(response, store) == RegisterStep(knownNodes, old(store), payload)
    {
      var failure := ValidateKeys(payload, RegistrationKeys, "Task Registration");
      if failure.Some? {
        return Fail(failure.value);
      }
      var d := payload.entries;
      var node := GetNode(knownNodes, Lookup(d, "node"));
      if node.None? {
        return Fail(UnknownNode(Lookup(d, "node")));
      }
      UpsertKeyedByPair(store, node.value, Lookup(d, "name"), Lookup(d, "endpoint"), Lookup(d, "type"));
      store := Upsert(store, node.value, Lookup(d, "name"), Lookup(d, "endpoint"), Lookup(d, "type"));
      response := Ok(Map([]));
    }

    /** `_deregister_task`: the record for the payload's (node, name) is
        deleted when there is one. */
    method Deregister(payload: Value) returns (response: Result<Value>)
      requires Valid()
      modifies this`store
      ensures Valid()
      ensures Outcome(response, store) == DeregisterStep(knownNodes, old(store), payload)
    {
      var failure := ValidateKeys(payload, DeregistrationKeys, "Task Deregistration");
      if failure.Some? {
        return Fail(failure.value);
      }
      var d := payload.entries;
      var node := GetNode(knownNodes, Lookup(d, "node"));
      if node.None? {
        return Fail(UnknownNode(Lookup(d, "node")));
      }
      var key := (node.value, Lookup(d, "name"));
      if key in store {
        store := store - {key};
      }
      response := Ok(Null);
    }

    /** The registration endpoint, routed on the payload's status. */
    method RegisterTask(data: Value) returns (response: Result<Value>)
      requires Valid()
      modifies this`store
      ensures Valid()
      ensures Outcome(response, store) == RegisterEndpoint(knownNodes, old(store), data)
    {
      if !data.Map? {
        return Fail(NotAMapping);
      }
      if Lookup(data.entries, "status") == Marker(NodeTerm) {
        response := Deregister(data);
        if response.Ok? {
          response := Ok(ResultTrue);
        }
      } else {
        response := Register(data);
      }
    }

    /** The execution endpoint: queues one call to the task's node when the
        node and the task are found, and none otherwise. */
    method ExecuteTask(data: Value) returns (response: Result<Value>)
      modifies this`dispatched
      ensures response == ExecuteStep(knownNodes, store, data).response
      ensures dispatched == old(dispatched) + ExecuteStep(knownNodes, store, data).sent
    {
      var failure := ValidateKeys(data, ExecutionKeys, "Task Execution");
      if failure.Some? {
        return Fail(failure.value);
      }
      var d := data.entries;
      var res := NodeAndTask(knownNodes, store, Lookup(d, "node"), Lookup(d, "name"));
      if res.None? {
        return Fail(TaskNotFound(Lookup(d, "node"), Lookup(d, "name")));
      }
      var (node, task) := res.value;
      dispatched := dispatched + [Dispatch(node, task.endpoint, Lookup(d, "parameters"))];
      response := Ok(ResultTrue);
    }
  }

  // ---------------------------------------------------------------------
  // Tasks grouped by node, for the index page

  /** The tasks of `tasks` that belong to `node`, in their order. */
  function TasksOf(tasks: seq<TaskRegister>, node: string): (r: seq<TaskRegister>)
    ensures |r| <= |tasks|
    ensures forall i :: 0 <= i < |r| ==> r[i].node == node
  {
    if tasks == [] then []
    else TasksOf(tasks[..|tasks| - 1], node) + (if tasks[|tasks| - 1].node == node then [tasks[|tasks| - 1]] else [])
  }

  /** A node's tasks are exactly the tasks naming it... */
  lemma {:induction false} TasksOfMembers(tasks: seq<TaskRegister>, node: string)
    ensures forall t :: t in TasksOf(tasks, node) <==> t in tasks && t.node == node
  {
    if tasks != [] {
      var n := |tasks| - 1;
      TasksOfMembers(tasks[..n], node);
      assert tasks == tasks[..n] + [tasks[n]];
    }
  }

  /** ...kept in query order: grouping distributes over concatenation. */
  lemma {:induction false} TasksOfAppend(a: seq<TaskRegister>, b: seq<TaskRegister>, node: string)
    ensures TasksOf(a + b, node) == TasksOf(a, node) + TasksOf(b, node)
  {
    if b == [] {
      assert a + b == a;
    } else {
      var n := |b| - 1;
      assert (a + b)[..|a + b| - 1] == a + b[..n];
      assert (a + b)[|a + b| - 1] == b[n];
      TasksOfAppend(a, b[..n], node);
    }
  }

  /** Grouping one more task adds it to its own node's group only. */
  lemma TasksOfStep(tasks: seq<TaskRegister>, i: nat)
    requires i < |tasks|
    ensures forall n :: TasksOf(tasks[..i + 1], n) == TasksOf(tasks[..i], n) + (if tasks[i].node == n then [tasks[i]] else [])
  {
    assert tasks[..i + 1][..i] == tasks[..i];
  }

  /** The indices of the tasks naming `node`. */
  ghost function IndicesOf(tasks: seq<TaskRegister>, node: string): set<int>
  {
    set i | 0 <= i < |tasks| && tasks[i].node == node
  }

  /** One more task adds its own index to its node's indices only. */
  lemma IndicesOfStep(tasks: seq<TaskRegister>, node: string)
    requires tasks != []
    ensures var n := |tasks| - 1;
            IndicesOf(tasks, node) == IndicesOf(tasks[..n], node) + (if tasks[n].node == node then {n} else {})
  {
    var n := |tasks| - 1;
    assert forall i :: 0 <= i < n ==> tasks[..n][i] == tasks[i];
  }

  /** A node's group holds one entry per task naming it. */
  lemma {:induction false} TasksOfCount(tasks: seq<TaskRegister>, node: string)
    ensures |TasksOf(tasks, node)| == |IndicesOf(tasks, node)|
  {
    if tasks != [] {
      var n := |tasks| - 1;
      TasksOfCount(tasks[..n], node);
      IndicesOfStep(tasks, node);
      assert n !in IndicesOf(tasks[..n], node);
    }
  }

  /** The first half of `_nodes_to_tasks`: each node's tasks, for the nodes
      that have any. */
  method GroupByNode(tasks: seq<TaskRegister>) returns (taskMap: map<string, seq<TaskRegister>>)
    ensures forall n :: n in taskMap <==> TasksOf(tasks, n) != []
    ensures forall n :: n in taskMap ==> taskMap[n] == TasksOf(tasks, n)
  {
    taskMap := map[];
    var i := 0;
    while i < |tasks|
      invariant 0 <= i <= |tasks|
      invariant Grouped(taskMap, tasks[..i])
    {
      var task := tasks[i];
      var group := if task.node in taskMap then taskMap[task.node] else [];
      GroupedStep(taskMap, tasks, i);
      taskMap := taskMap[task.node := group + [task]];
      i := i + 1;
    }
    assert tasks[..i] == tasks;
  }

  /** `m` maps exactly the nodes with tasks in `ts` to their tasks. */
  ghost predicate Grouped(m: map<string, seq<TaskRegister>>, ts: seq<TaskRegister>)
  {
    && (forall n :: n in m <==> TasksOf(ts, n) != [])
    && (forall n :: n in m ==> m[n] == TasksOf(ts, n))
  }

  /** Appending one task to its node's group keeps the grouping exact. */
  lemma GroupedStep(m: map<string, seq<TaskRegister>>, tasks: seq<TaskRegister>, i: nat)
    requires i < |tasks| && Grouped(m, tasks[..i])
    ensures var node := tasks[i].node;
            var group := if node in m then m[node] else [];
            Grouped(m[node := group + [tasks[i]]], tasks[..i + 1])
  {
    TasksOfStep(tasks, i);
  }

  /** `_nodes_to_tasks` on the results of its three queries: the ids of
      nodes whose metadata marks them as task nodes, those nodes, and the
      registry's tasks on them. Nodes are identified by name. Every node maps
      to its tasks in query order, and a node without tasks to none. */
  method NodesToTasks(taskNodeIds: seq<string>, nodes: seq<string>, tasks: seq<TaskRegister>)
    returns (nodeToTasks: map<string, seq<TaskRegister>>)
    ensures taskNodeIds == [] ==> nodeToTasks == map[]
    ensures taskNodeIds != [] ==> forall n :: n in nodeToTasks <==> n in nodes
    ensures taskNodeIds != [] ==> forall n :: n in nodeToTasks ==> nodeToTasks[n] == TasksOf(tasks, n)
  {
    if taskNodeIds == [] {
      return map[];
    }
    var taskMap := GroupByNode(tasks);
    nodeToTasks := map[];
    var j := 0;
    while j < |nodes|
      invariant 0 <= j <= |nodes|
      invariant forall n :: n in nodeToTasks <==> n in nodes[..j]
      invariant forall n :: n in nodeToTasks ==> nodeToTasks[n] == TasksOf(tasks, n)
    {
      var node := nodes[j];
      assert nodes[..j + 1] == nodes[..j] + [node];
      nodeToTasks := nodeToTasks[node := if node in taskMap then taskMap[node] else []];
      j := j + 1;
    }
    assert nodes[..j] == nodes;
  }
}
