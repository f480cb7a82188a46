/**
 * The messages a task node sends and the controller's handling of them,
 * taken together: the node's registration and deregistration payloads pass
 * the controller's key checks and are routed to the intended handler, a
 * registered task can be executed at the endpoint the node serves it on, and
 * a node's shutdown removes every registration it made.
 */
module WireContract {
  import opened Values
  import opened Tasks
  import opened Tables
  import opened TaskNodes
  import opened Registry

  /** The payload field names of one length differ in some character. */
  lemma FieldNamesDistinct()
    ensures "node" != "name" && "node" != "type" && "node" != "port"
    ensures "name" != "type" && "name" != "port" && "type" != "port"
  {
    assert "node"[1] != "name"[1];
    assert "node"[0] != "type"[0] && "node"[0] != "port"[0];
    assert "name"[0] != "type"[0] && "name"[0] != "port"[0];
    assert "type"[0] != "port"[0];
  }

  /** The registration payload names the task: its node, its name, its type. */
  lemma RegisterPayloadIdentity(t: Task)
    requires HasType(t)
    ensures var p := RegisterPayload(t);
            && HasKey(p.entries, "node") && Lookup(p.entries, "node") == Str(t.node.name)
            && HasKey(p.entries, "name") && Lookup(p.entries, "name") == Str(t.name)
            && HasKey(p.entries, "type") && Lookup(p.entries, "type") == TypeOf(t)
  {
    var d := RegisterPayload(t).entries;
    LookupAt(d, 0);
    LookupAt(d, 1);
    LookupAt(d, 2);
  }

  /** The registration payload carries the endpoint the node routes to the task. */
  lemma RegisterPayloadEndpoint(t: Task)
    requires HasType(t)
    ensures var p := RegisterPayload(t);
            HasKey(p.entries, "endpoint") && Lookup(p.entries, "endpoint") == Str(Endpoint(t))
  {
    LookupAt(RegisterPayload(t).entries, 3);
  }

  /** The registration payload carries the node's port and an online status. */
  lemma RegisterPayloadStatus(t: Task)
    requires HasType(t)
    ensures var p := RegisterPayload(t);
            && HasKey(p.entries, "port") && Lookup(p.entries, "port") == Int(t.node.port)
            && Lookup(p.entries, "status") == Marker(NodeOnline)
  {
    var d := RegisterPayload(t).entries;
    LookupAt(d, 4);
    LookupAt(d, 5);
  }

  /** The registration payload is a mapping holding every key the
      controller's registration check asks for. */
  lemma RegisterPayloadKeys(t: Task)
    requires HasType(t)
    ensures RegisterPayload(t).Map?
    ensures forall k :: k in RegistrationKeys ==> HasKey(RegisterPayload(t).entries, k)
  {
    var d := RegisterPayload(t).entries;
    EntryKeys(d);
    assert d[0].0 == "node" && d[1].0 == "name" && d[2].0 == "type" && d[3].0 == "endpoint" && d[4].0 == "port";
  }

  /** What the deregistration payload carries, read back by key. */
  lemma DeregisterPayloadFields(t: Task)
    ensures var p := DeregisterPayload(t);
            && p.Map?
            && (forall k :: k in DeregistrationKeys ==> HasKey(p.entries, k))
            && Lookup(p.entries, "node") == Str(t.node.name)
            && Lookup(p.entries, "name") == Str(t.name)
            && Lookup(p.entries, "status") == Marker(NodeTerm)
  {
    var d := DeregisterPayload(t).entries;
    FieldNamesDistinct();
    LookupAt(d, 0);
    LookupAt(d, 1);
    LookupAt(d, 2);
  }

  /** The registry key of a task: its node's name and its name. */
  function TaskKey(t: Task): RegisterKey
  {
    (t.node.name, Str(t.name))
  }

  /** A task's registration, sent by a node the controller knows, is handled
      as a registration: it succeeds and leaves a record for the task holding
      the endpoint the node serves it on and its type. */
  lemma RegistrationAccepted(known: set<string>, store: Store, t: Task)
    requires HasType(t) && t.node.name in known && KeyedByPair(store)
    ensures var o := RegisterEndpoint(known, store, RegisterPayload(t));
            && o.response == Ok(Map([]))
            && TaskKey(t) in o.store
            && o.store[TaskKey(t)].endpoint == Str(Endpoint(t))
            && o.store[TaskKey(t)].taskType == TypeOf(t)
            && o.store.Keys == store.Keys + {TaskKey(t)}
            && forall k :: k in store && k != TaskKey(t) ==> o.store[k] == store[k]
  {
    RegisterPayloadKeys(t);
    RegisterPayloadIdentity(t);
    RegisterPayloadEndpoint(t);
    RegisterPayloadStatus(t);
    var p := RegisterPayload(t);
    assert !IsDeregistration(p);
    RegistrationRecords(known, store, p);
  }

  /** A task's deregistration, sent by a node the controller knows, is handled
      as a deregistration: it answers `{'result': True}` and removes exactly
      the task's record. */
  lemma DeregistrationAccepted(known: set<string>, store: Store, t: Task)
    requires t.node.name in known
    ensures RegisterEndpoint(known, store, DeregisterPayload(t)) == Outcome(Ok(ResultTrue), store - {TaskKey(t)})
  {
    DeregisterPayloadFields(t);
    DeregistrationRemoves(known, store, DeregisterPayload(t));
  }

  /** The request the index page sends to run a task. */
  function ExecutionRequest(t: Task, parameters: Value): Value
  {
    Map([("node", Str(t.node.name)), ("name", Str(t.name)), ("parameters", parameters)])
  }

  /** The execution request passes the controller's key check and names
      the task's node, the task and the parameters. */
  lemma ExecutionRequestFields(t: Task, parameters: Value)
    ensures var r := ExecutionRequest(t, parameters);
            && r.Map?
            && (forall k :: k in ExecutionKeys ==> HasKey(r.entries, k))
            && Lookup(r.entries, "node") == Str(t.node.name)
            && Lookup(r.entries, "name") == Str(t.name)
            && Lookup(r.entries, "parameters") == parameters
  {
    var d := ExecutionRequest(t, parameters).entries;
    FieldNamesDistinct();
    LookupAt(d, 0);
    LookupAt(d, 1);
    LookupAt(d, 2);
  }

  /** Once registered, a task can be executed: exactly one call goes to its
      node, at the endpoint the node routes to the task. */
  lemma RegisteredTaskExecutes(known: set<string>, store: Store, t: Task, parameters: Value)
    requires HasType(t) && t.node.name in known && KeyedByPair(store)
    ensures var registered := RegisterEndpoint(known, store, RegisterPayload(t)).store;
            ExecuteStep(known, registered, ExecutionRequest(t, parameters)) ==
              Execution(Ok(ResultTrue), [Dispatch(t.node.name, Str(Endpoint(t)), parameters)])
  {
    RegistrationAccepted(known, store, t);
    var registered := RegisterEndpoint(known, store, RegisterPayload(t)).store;
    ExecutionRequestFields(t, parameters);
    var r := ExecutionRequest(t, parameters);
    assert ValidateKeys(r, ExecutionKeys, "Task Execution").None?;
    var found := NodeAndTask(known, registered, Str(t.node.name), Str(t.name));
    assert found == Some((t.node.name, registered[TaskKey(t)]));
  }

  /** The registry after the controller handles a sequence of messages on the
      registration endpoint, in order. */
  function Deliver(known: set<string>, store: Store, messages: seq<Value>): Store
  {
    if messages == [] then store
    else RegisterEndpoint(known, Deliver(known, store, messages[..|messages| - 1]), messages[|messages| - 1]).store
  }

  /** The registry keys of the given tasks. */
  ghost function TaskKeys(tasks: seq<Task>): set<RegisterKey>
  {
    set t | t in tasks :: TaskKey(t)
  }

  /** One more task adds its own key to the tasks' keys. */
  lemma TaskKeysStep(tasks: seq<Task>)
    requires tasks != []
    ensures TaskKeys(tasks) == TaskKeys(tasks[..|tasks| - 1]) + {TaskKey(tasks[|tasks| - 1])}
  {
    assert tasks == tasks[..|tasks| - 1] + [tasks[|tasks| - 1]];
  }

  /** Removing keys one set after another removes their union. */
  lemma RemoveInTurn(store: Store, a: set<RegisterKey>, b: set<RegisterKey>)
    ensures (store - a) - b == store - (a + b)
  {
  }

  /** A node's shutdown, delivered to a controller that knows the node,
      removes the records of its tasks and nothing else. */
  lemma {:induction false} ShutdownRemovesTasks(known: set<string>, store: Store, tasks: seq<Task>)
    requires forall t :: t in tasks ==> t.node.name in known
    ensures Deliver(known, store, DeregisterPayloads(tasks)) == store - TaskKeys(tasks)
  {
    if tasks == [] {
      assert TaskKeys(tasks) == {};
    } else {
      var n := |tasks| - 1;
      var init := tasks[..n];
      assert forall t :: t in init ==> t in tasks;
      ShutdownRemovesTasks(known, store, init);
      var ps := DeregisterPayloads(tasks);
      assert ps[..n] == DeregisterPayloads(init);
      assert tasks[n] in tasks;
      DeregistrationAccepted(known, store - TaskKeys(init), tasks[n]);
      TaskKeysStep(tasks);
      RemoveInTurn(store, TaskKeys(init), {TaskKey(tasks[n])});
    }
  }

  /** The registry holds a record for the task at the endpoint the node
      routes to it, with the task's type. */
  ghost predicate Registered(s: Store, t: Task)
  {
    HasType(t) && TaskKey(t) in s && s[TaskKey(t)].endpoint == Str(Endpoint(t)) && s[TaskKey(t)].taskType == TypeOf(t)
  }

  /** Registering the last of a node's tasks keeps the records of the others,
      since no two of them share a name. */
  lemma RegistrationKeepsEarlier(known: set<string>, before: Store, tasks: seq<Task>)
    requires tasks != [] && KeyedByPair(before)
    requires forall t :: t in tasks ==> HasType(t) && t.node.name in known
    requires forall i, j :: 0 <= i < j < |tasks| ==> TaskKey(tasks[i]) != TaskKey(tasks[j])
    requires forall t :: t in tasks[..|tasks| - 1] ==> Registered(before, t)
    ensures var after := RegisterEndpoint(known, before, RegisterPayload(tasks[|tasks| - 1])).store;
            KeyedByPair(after) && forall t :: t in tasks ==> Registered(after, t)
  {
    var n := |tasks| - 1;
    assert tasks[n] in tasks;
    RegisterEndpointKeyedByPair(known, before, RegisterPayload(tasks[n]));
    assert tasks == tasks[..n] + [tasks[n]];
    forall t | t in tasks
      ensures Registered(RegisterEndpoint(known, before, RegisterPayload(tasks[n])).store, t)
    {
      if t == tasks[n] {
        RegistrationRegisters(known, before, t);
      } else {
        EarlierKeyDiffers(tasks, t);
        RegistrationKeepsOther(known, before, tasks[n], t);
      }
    }
  }

  /** Registering a task of a known node leaves its record registered. */
  lemma RegistrationRegisters(known: set<string>, before: Store, t: Task)
    requires KeyedByPair(before) && HasType(t) && t.node.name in known
    ensures Registered(RegisterEndpoint(known, before, RegisterPayload(t)).store, t)
  {
    RegistrationAccepted(known, before, t);
  }

  /** A task before the last one has a key other than the last one's. */
  lemma EarlierKeyDiffers(tasks: seq<Task>, t: Task)
    requires tasks != [] && t in tasks[..|tasks| - 1]
    requires forall i, j :: 0 <= i < j < |tasks| ==> TaskKey(tasks[i]) != TaskKey(tasks[j])
    ensures TaskKey(t) != TaskKey(tasks[|tasks| - 1])
  {
    var i :| 0 <= i < |tasks| - 1 && tasks[..|tasks| - 1][i] == t;
    assert tasks[i] == t;
  }

  /** Registering one task leaves the record of a task with another key as it was. */
  lemma RegistrationKeepsOther(known: set<string>, before: Store, last: Task, t: Task)
    requires KeyedByPair(before) && HasType(last) && last.node.name in known
    requires Registered(before, t) && TaskKey(t) != TaskKey(last)
    ensures Registered(RegisterEndpoint(known, before, RegisterPayload(last)).store, t)
  {
    RegistrationAccepted(known, before, last);
    var after := RegisterEndpoint(known, before, RegisterPayload(last)).store;
    assert TaskKey(t) in before && after[TaskKey(t)] == before[TaskKey(t)];
  }

  /** A node's registrations, delivered to a controller that knows the node,
      leave a record for each of its tasks at the endpoint the node routes to
      that task, provided no two of the tasks share a name. */
  lemma {:induction false} StartupRegistersTasks(known: set<string>, store: Store, tasks: seq<Task>)
    requires KeyedByPair(store)
    requires forall t :: t in tasks ==> HasType(t) && t.node.name in known
    requires forall i, j :: 0 <= i < j < |tasks| ==> TaskKey(tasks[i]) != TaskKey(tasks[j])
    ensures var s := Deliver(known, store, RegisterPayloads(tasks));
            KeyedByPair(s) && forall t :: t in tasks ==> Registered(s, t)
  {
    if tasks != [] {
      var n := |tasks| - 1;
      var init := tasks[..n];
      assert forall t :: t in init ==> t in tasks;
      StartupRegistersTasks(known, store, init);
      var ps := RegisterPayloads(tasks);
      assert ps[..|ps| - 1] == RegisterPayloads(init);
      RegistrationKeepsEarlier(known, Deliver(known, store, RegisterPayloads(init)), tasks);
    }
  }
}
