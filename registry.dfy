/**
 * The controller side of the task feature, as functions of the registry
 * before a request: payload key checks, routing of the registration
 * endpoint on the payload's status, registration, deregistration, the
 * node-and-task lookup and task execution.
 *
 * The controller's database is a map from (node name, task name) to the
 * task's record; the nodes the controller knows are a set of names. A failed
 * `assert` in a handler is a `Fail` response and leaves the registry as it
 * was.
 */
module Registry {
  import opened Values
  import opened Tables

  /** The registry: one record per (node name, task name). */
  type Store = map<RegisterKey, TaskRegister>

  const RegistrationKeys: seq<string> := ["node", "name", "type", "endpoint", "port"]
  const DeregistrationKeys: seq<string> := ["node", "name"]
  const ExecutionKeys: seq<string> := ["node", "name", "parameters"]

  /** Why a request was refused. `what` names the payload kind in the message. */
  datatype Failure =
    | NotADict(what: string)              // "<what> payload must be a dict"
    | MissingKeys(what: string)           // "<what> payload missing one or more required key"
    | UnknownNode(node: Value)            // "Node <node> not found"
    | TaskNotFound(node: Value, name: Value)
    | NotAMapping                         // the request body has no `get`

  datatype Result<T> = Ok(value: T) | Fail(failure: Failure)

  /** A handler's response together with the registry after it. */
  datatype Outcome = Outcome(response: Result<Value>, store: Store)

  /** One call the controller queues for a node: run the task at `endpoint`. */
  datatype Dispatch = Dispatch(node: string, endpoint: Value, parameters: Value)

  /** A handler's response together with the calls it queued. */
  datatype Execution = Execution(response: Result<Value>, sent: seq<Dispatch>)

  /** The body `{'result': True}`. */
  const ResultTrue: Value := Map([("result", Bool(true))])

  // ---------------------------------------------------------------------
  // Key checks and lookups

  /** `all(k in payload for k in keys)` over a mapping. */
  function AllPresent(d: Dict, keys: seq<string>): (b: bool)
    ensures b <==> forall k :: k in keys ==> HasKey(d, k)
  {
    if keys == [] then true
    else HasKey(d, keys[0]) && AllPresent(d, keys[1..])
  }

  /** None when the payload is a mapping holding every key, else why not. */
  function ValidateKeys(payload: Value, keys: seq<string>, what: string): (r: Option<Failure>)
    ensures r.None? <==> payload.Map? && forall k :: k in keys ==> HasKey(payload.entries, k)
    ensures r.Some? && !payload.Map? ==> r.value == NotADict(what)
    ensures r.Some? && payload.Map? ==> r.value == MissingKeys(what)
  {
    if !payload.Map? then Some(NotADict(what))
    else if !AllPresent(payload.entries, keys) then Some(MissingKeys(what))
    else None
  }

  /** The controller's node for a payload's "node" value: found by name. */
  function GetNode(known: set<string>, v: Value): (r: Option<string>)
    ensures r.Some? <==> v.Str? && v.s in known
    ensures r.Some? ==> r.value == v.s
  {
    if v.Str? && v.s in known then Some(v.s) else None
  }

  /** The node and the task record a request names, if both exist. */
  function NodeAndTask(known: set<string>, store: Store, node: Value, name: Value): (r: Option<(string, TaskRegister)>)
    ensures r.None? <==> GetNode(known, node).None? || (node.s, name) !in store
    ensures r.Some? ==> node.Str? && r.value.0 == node.s && r.value.0 in known
                        && (node.s, name) in store && r.value.1 == store[(node.s, name)]
  {
    match GetNode(known, node)
    case None => None
    case Some(n) => if (n, name) in store then Some((n, store[(n, name)])) else None
  }

  /** Records found by the lookup carry the node and name asked for. */
  lemma NodeAndTaskMatches(known: set<string>, store: Store, node: Value, name: Value)
    requires KeyedByPair(store)
    ensures var r := NodeAndTask(known, store, node, name);
            r.Some? ==> r.value.1.node == r.value.0 && r.value.1.name == name
  {
  }

  // ---------------------------------------------------------------------
  // Registration

  /** Get-or-create as the source writes it, over the rows of the table: a
      row is reused only when node, name, endpoint and type all match. */
  function GetOrCreateRows(rows: seq<TaskRegister>, node: string, name: Value, endpoint: Value, taskType: Value): (r: seq<TaskRegister>)
    ensures rows <= r && |r| <= |rows| + 1
    ensures |r| == |rows| + 1 ==> r[|rows|].state == DefaultState
  {
    if exists r :: r in rows && r.node == node && r.name == name && r.endpoint == endpoint && r.taskType == taskType
    then rows
    else rows + [TaskRegister(node, name, DefaultState, endpoint, taskType)]
  }

  /** As written, a matching row exists afterwards, an identical second call
      changes nothing, and a new row is pending. */
  lemma GetOrCreateRowsFinds(rows: seq<TaskRegister>, node: string, name: Value, endpoint: Value, taskType: Value)
    ensures var rows' := GetOrCreateRows(rows, node, name, endpoint, taskType);
            && (exists r :: r in rows' && r.node == node && r.name == name && r.endpoint == endpoint && r.taskType == taskType)
            && GetOrCreateRows(rows', node, name, endpoint, taskType) == rows'
            && (rows' == rows || rows' == rows + [TaskRegister(node, name, DefaultState, endpoint, taskType)])
  {
    var rows' := GetOrCreateRows(rows, node, name, endpoint, taskType);
    if rows' != rows {
      assert rows'[|rows|] in rows';
    }
  }

  /** As written, re-registering a task whose type changed adds a second row
      for the same (node, name): the declared uniqueness does not hold. */
  lemma GetOrCreateRowsDuplicatesPair()
    ensures var rows1 := GetOrCreateRows([], "n", Str("t"), Str("/task/n/t"), Str("request"));
            var rows2 := GetOrCreateRows(rows1, "n", Str("t"), Str("/task/n/t"), Str("cron"));
            RowsUnique(rows1) && !RowsUnique(rows2) && |rows2| == 2
  {
    var rows1 := GetOrCreateRows([], "n", Str("t"), Str("/task/n/t"), Str("request"));
    assert rows1 == [TaskRegister("n", Str("t"), DefaultState, Str("/task/n/t"), Str("request"))];
    var rows2 := GetOrCreateRows(rows1, "n", Str("t"), Str("/task/n/t"), Str("cron"));
    assert Str("request") != Str("cron");
    assert rows2 == rows1 + [TaskRegister("n", Str("t"), DefaultState, Str("/task/n/t"), Str("cron"))];
    assert KeyOf(rows2[0]) == KeyOf(rows2[1]);
  }

  /** Registration keyed by (node, name): the record for the pair takes the
      payload's endpoint and type and keeps its state; a new record is pending. */
  function Upsert(store: Store, node: string, name: Value, endpoint: Value, taskType: Value): (s: Store)
    ensures (node, name) in s
    ensures s.Keys == store.Keys + {(node, name)}
  {
    var key := (node, name);
    if key in store then store[key := store[key].(endpoint := endpoint, taskType := taskType)]
    else store[key := TaskRegister(node, name, DefaultState, endpoint, taskType)]
  }

  /** The registered record holds the payload's values; a first registration
      is pending and a repeated one keeps its state; nothing else changes. */
  lemma UpsertRecord(store: Store, node: string, name: Value, endpoint: Value, taskType: Value)
    requires KeyedByPair(store)
    ensures var s := Upsert(store, node, name, endpoint, taskType);
            var r := s[(node, name)];
            && r.node == node && r.name == name && r.endpoint == endpoint && r.taskType == taskType
            && r.state == (if (node, name) in store then store[(node, name)].state else DefaultState)
            && forall k :: k in store && k != (node, name) ==> k in s && s[k] == store[k]
  {
  }

  /** Registering the same values twice is the same as registering them once. */
  lemma UpsertIdempotent(store: Store, node: string, name: Value, endpoint: Value, taskType: Value)
    ensures var s := Upsert(store, node, name, endpoint, taskType);
            Upsert(s, node, name, endpoint, taskType) == s
  {
    var s := Upsert(store, node, name, endpoint, taskType);
    var key := (node, name);
    assert s[key].(endpoint := endpoint, taskType := taskType) == s[key];
  }

  /** Registration keeps every record under its own (node, name). */
  lemma UpsertKeyedByPair(store: Store, node: string, name: Value, endpoint: Value, taskType: Value)
    requires KeyedByPair(store)
    ensures KeyedByPair(Upsert(store, node, name, endpoint, taskType))
  {
  }

  /** `_register_task`: check the keys, find the node, then get-or-create the
      record. The response body is always empty. */
  function RegisterStep(known: set<string>, store: Store, payload: Value): (r: Outcome)
    ensures r.response.Fail? ==> r.store == store
    ensures r.response.Ok? ==> r.response.value == Map([]) && r.store.Keys >= store.Keys
  {
    match ValidateKeys(payload, RegistrationKeys, "Task Registration")
    case Some(f) => Outcome(Fail(f), store)
    case None =>
      var d := payload.entries;
      match GetNode(known, Lookup(d, "node"))
      case None => Outcome(Fail(UnknownNode(Lookup(d, "node"))), store)
      case Some(n) => Outcome(Ok(Map([])), Upsert(store, n, Lookup(d, "name"), Lookup(d, "endpoint"), Lookup(d, "type")))
  }

  /** `_deregister_task`: check the keys, find the node, then delete the
      record if there is one. The response body is `None`. */
  function DeregisterStep(known: set<string>, store: Store, payload: Value): (r: Outcome)
    ensures r.response.Fail? ==> r.store == store
    ensures r.response.Ok? ==> r.response.value == Null
    ensures r.store.Keys <= store.Keys && |store.Keys - r.store.Keys| <= 1
    ensures forall k :: k in r.store ==> r.store[k] == store[k]
  {
    match ValidateKeys(payload, DeregistrationKeys, "Task Deregistration")
    case Some(f) => Outcome(Fail(f), store)
    case None =>
      var d := payload.entries;
      match GetNode(known, Lookup(d, "node"))
      case None => Outcome(Fail(UnknownNode(Lookup(d, "node"))), store)
      case Some(n) =>
        var key := (n, Lookup(d, "name"));
        if key in store then Outcome(Ok(Null), store - {key}) else Outcome(Ok(Null), store)
  }

  /** A payload asks for deregistration exactly when its status is NODE_TERM. */
  predicate IsDeregistration(data: Value)
    requires data.Map?
  {
    Lookup(data.entries, "status") == Marker(NodeTerm)
  }

  /** The registration endpoint: deregistration answered with
      `{'result': True}`, or registration answered with its result. */
  function RegisterEndpoint(known: set<string>, store: Store, data: Value): (r: Outcome)
    ensures r.response.Fail? ==> r.store == store
    ensures r.response.Ok? ==> data.Map? && r.response.value == (if IsDeregistration(data) then ResultTrue else Map([]))
  {
    if !data.Map? then Outcome(Fail(NotAMapping), store)
    else if IsDeregistration(data) then
      var o := DeregisterStep(known, store, data);
      if o.response.Ok? then Outcome(Ok(ResultTrue), o.store) else o
    else RegisterStep(known, store, data)
  }

  /** `execute_task`: check the keys, look up the node and the task, then
      queue exactly one call to the task's endpoint with the parameters. */
  function ExecuteStep(known: set<string>, store: Store, data: Value): (r: Execution)
    ensures |r.sent| <= 1
    ensures r.sent != [] <==> r.response.Ok?
    ensures r.response.Ok? ==> r.response.value == ResultTrue
  {
    match ValidateKeys(data, ExecutionKeys, "Task Execution")
    case Some(f) => Execution(Fail(f), [])
    case None =>
      var d := data.entries;
      match NodeAndTask(known, store, Lookup(d, "node"), Lookup(d, "name"))
      case None => Execution(Fail(TaskNotFound(Lookup(d, "node"), Lookup(d, "name"))), [])
      case Some(found) =>
        Execution(Ok(ResultTrue), [Dispatch(found.0, found.1.endpoint, Lookup(d, "parameters"))])
  }

  // ---------------------------------------------------------------------
  // Properties of the controller

  /** The payload's (node, task name) key, for a payload naming a known node. */
  function KeyOfPayload(d: Dict): RegisterKey
    requires Lookup(d, "node").Str?
  {
    (Lookup(d, "node").s, Lookup(d, "name"))
  }

  /** A registration or deregistration naming an unknown node fails and leaves
      the registry unchanged; so does any payload failing its key check. */
  lemma FailedRequestsChangeNothing(known: set<string>, store: Store, data: Value)
    ensures var o := RegisterEndpoint(known, store, data);
            o.response.Fail? ==> o.store == store
    ensures data.Map? && HasKey(data.entries, "node") && GetNode(known, Lookup(data.entries, "node")).None? ==>
              RegisterEndpoint(known, store, data) == Outcome(Fail(UnknownNode(Lookup(data.entries, "node"))), store)
              || RegisterEndpoint(known, store, data).response == Fail(MissingKeys(if IsDeregistration(data) then "Task Deregistration" else "Task Registration"))
  {
  }

  /** Registration of a known node's task answers `{}` and leaves a record
      carrying the payload's endpoint and type, pending when it is new and
      keeping its state otherwise; every other record is unchanged. */
  lemma RegistrationRecords(known: set<string>, store: Store, data: Value)
    requires KeyedByPair(store)
    requires data.Map? && !IsDeregistration(data)
    requires forall k :: k in RegistrationKeys ==> HasKey(data.entries, k)
    requires Lookup(data.entries, "node").Str? && Lookup(data.entries, "node").s in known
    ensures var o := RegisterEndpoint(known, store, data);
            var d := data.entries;
            var key := KeyOfPayload(d);
            && o.response == Ok(Map([]))
            && key in o.store
            && o.store[key].endpoint == Lookup(d, "endpoint") && o.store[key].taskType == Lookup(d, "type")
            && o.store[key].state == (if key in store then store[key].state else DefaultState)
            && o.store.Keys == store.Keys + {key}
            && forall k :: k in store && k != key ==> o.store[k] == store[k]
  {
    var d := data.entries;
    UpsertRecord(store, Lookup(d, "node").s, Lookup(d, "name"), Lookup(d, "endpoint"), Lookup(d, "type"));
  }

  /** Sending the same registration twice leaves what sending it once leaves. */
  lemma RegistrationIdempotent(known: set<string>, store: Store, data: Value)
    requires data.Map? && !IsDeregistration(data)
    ensures var o := RegisterEndpoint(known, store, data);
            RegisterEndpoint(known, o.store, data) == o
  {
    var o := RegisterEndpoint(known, store, data);
    if o.response.Ok? {
      var d := data.entries;
      UpsertIdempotent(store, Lookup(d, "node").s, Lookup(d, "name"), Lookup(d, "endpoint"), Lookup(d, "type"));
    }
  }

  /** Deregistration of a known node's task answers `{'result': True}` and
      removes exactly that task's record; a task with no record is a no-op. */
  lemma DeregistrationRemoves(known: set<string>, store: Store, data: Value)
    requires data.Map? && IsDeregistration(data)
    requires forall k :: k in DeregistrationKeys ==> HasKey(data.entries, k)
    requires Lookup(data.entries, "node").Str? && Lookup(data.entries, "node").s in known
    ensures var o := RegisterEndpoint(known, store, data);
            var key := KeyOfPayload(data.entries);
            && o.response == Ok(ResultTrue)
            && o.store == store - {key}
            && (key !in store ==> o.store == store)
            && key !in o.store
            && forall k :: k in store && k != key ==> k in o.store && o.store[k] == store[k]
  {
  }

  /** Every handler keeps each record under its own (node, name). */
  lemma RegisterEndpointKeyedByPair(known: set<string>, store: Store, data: Value)
    requires KeyedByPair(store)
    ensures KeyedByPair(RegisterEndpoint(known, store, data).store)
  {
    if data.Map? && !IsDeregistration(data) && RegisterEndpoint(known, store, data).response.Ok? {
      var d := data.entries;
      UpsertKeyedByPair(store, Lookup(d, "node").s, Lookup(d, "name"), Lookup(d, "endpoint"), Lookup(d, "type"));
    }
  }

  /** Execution queues a call exactly when it succeeds, and then exactly one
      call: to the named node, at the registered endpoint, with the request's
      parameters. */
  lemma ExecutionDispatchesOnce(known: set<string>, store: Store, data: Value)
    ensures var e := ExecuteStep(known, store, data);
            && (e.response.Fail? <==> e.sent == [])
            && (e.response.Ok? ==> e.response.value == ResultTrue)
            && (e.response.Ok? <==>
                  && data.Map? && (forall k :: k in ExecutionKeys ==> HasKey(data.entries, k))
                  && NodeAndTask(known, store, Lookup(data.entries, "node"), Lookup(data.entries, "name")).Some?)
            && (e.response.Ok? ==>
                  var d := data.entries;
                  var key := KeyOfPayload(d);
                  && key in store
                  && e.sent == [Dispatch(key.0, store[key].endpoint, Lookup(d, "parameters"))])
  {
  }
}
