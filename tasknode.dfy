/**
 * The worker side: a task node loads a task configuration, checks it,
 * creates one task per configured entry, exposes an endpoint per task,
 * registers every task with the controller and deregisters them on shutdown.
 * Messages the node posts to the controller are recorded, in order, in the
 * ghost log `posted`.
 */
module TaskNodes {
  import opened Values
  import opened Tasks
  import opened ConfigRules

  // ---------------------------------------------------------------------
  // The configured task entries

  /** The entries of the "tasks" mapping as the node creates tasks from them:
      none when "tasks" is not a mapping. */
  function TaskEntries(config: Dict): (r: Dict)
    ensures r != [] ==> Lookup(config, "tasks") == Map(r)
  {
    var t := Lookup(config, "tasks");
    if t.Map? then t.entries else []
  }

  /** Listing the "tasks" entries as the source does, with `.items()`; `None`
      stands for the AttributeError a value other than a mapping raises. */
  function TaskItemsAsWritten(config: Dict): (r: Option<Dict>)
    ensures r.Some? <==> Lookup(config, "tasks").Map?
    ensures r.Some? ==> r.value == TaskEntries(config)
  {
    var t := Lookup(config, "tasks");
    if t.Map? then Some(t.entries) else None
  }

  /** The check admits an empty list as "tasks", on which listing the entries
      as the source does fails. */
  lemma ValidatorAdmitsEmptyListTasks()
    ensures var c := [("name", Str("n")), ("tasks", List([]))];
            && TaskEntriesAreMaps(c)
            && ConfigErrors(c) == []
            && TaskItemsAsWritten(c) == None
  {
    var c := [("name", Str("n")), ("tasks", List([]))];
    assert c[1..] == [("tasks", List([]))];
    assert Lookup(c, "name") == Str("n") && Lookup(c, "tasks") == List([]);
    MissingKeyErrorsOfRequired(c);
  }

  /** For every configuration the check accepts, `TaskEntries` is defined and
      agrees with the source's listing wherever that listing succeeds; the two
      differ only on a "tasks" value that is empty and not a mapping. Every
      entry it yields is a well-formed task descriptor. */
  lemma AcceptedConfigTaskEntries(config: Dict)
    requires TaskEntriesAreMaps(config) && ConfigErrors(config) == []
    ensures TaskItemsAsWritten(config).Some? ==> TaskEntries(config) == TaskItemsAsWritten(config).value
    ensures TaskItemsAsWritten(config).None? ==> TaskEntries(config) == [] && !Truthy(Lookup(config, "tasks"))
    ensures forall i :: 0 <= i < |TaskEntries(config)| ==>
              TaskEntries(config)[i].1.Map? && WellFormedTask(TaskEntries(config)[i].1.entries)
  {
    ConfigErrorsEmptyIff(config);
  }

  /** The tasks created, in order, from a list of entries. */
  function NewTasks(id: NodeId, config: Dict, entries: Dict): (ts: seq<Task>)
    ensures |ts| == |entries|
    ensures forall i :: 0 <= i < |entries| ==> ts[i] == Task(id, entries[i].0, entries[i].1, config)
  {
    if entries == [] then []
    else NewTasks(id, config, entries[..|entries| - 1]) + [Task(id, entries[|entries| - 1].0, entries[|entries| - 1].1, config)]
  }

  /** Every task was created by this node from one of its configured entries. */
  ghost predicate OwnedTasks(tasks: seq<Task>, id: NodeId, config: Dict)
  {
    forall t :: t in tasks ==> t.node == id && t.config == config && (t.name, t.descriptor) in TaskEntries(config)
  }

  /** Among a node's tasks, a shared endpoint means the same task (the
      configured tasks form a dictionary). */
  lemma OwnedTasksShareEndpointsOnlyWhenEqual(tasks: seq<Task>, id: NodeId, config: Dict)
    requires OwnedTasks(tasks, id, config) && IsDict(TaskEntries(config))
    ensures forall i, j :: 0 <= i < |tasks| && 0 <= j < |tasks| && Endpoint(tasks[i]) == Endpoint(tasks[j]) ==>
              tasks[i] == tasks[j]
  {
    forall i, j | 0 <= i < |tasks| && 0 <= j < |tasks| && Endpoint(tasks[i]) == Endpoint(tasks[j])
      ensures tasks[i] == tasks[j]
    {
      var a, b := tasks[i], tasks[j];
      assert a in tasks && b in tasks;
      EndpointInjective(a, b);
      LookupInDict(TaskEntries(config), a.name, a.descriptor);
      LookupInDict(TaskEntries(config), b.name, b.descriptor);
    }
  }

  // ---------------------------------------------------------------------
  // Endpoint table and messages to the controller

  /** The handler's endpoint table after mapping each task's endpoint to the
      task, in order. */
  function WithEndpoints(m: map<string, Task>, ts: seq<Task>): map<string, Task>
  {
    if ts == [] then m
    else WithEndpoints(m, ts[..|ts| - 1])[Endpoint(ts[|ts| - 1]) := ts[|ts| - 1]]
  }

  /** The endpoint table gains exactly the tasks' endpoints. */
  lemma {:induction false} WithEndpointsKeys(m: map<string, Task>, ts: seq<Task>)
    ensures WithEndpoints(m, ts).Keys == m.Keys + (set t | t in ts :: Endpoint(t))
  {
    if ts != [] {
      var n := |ts| - 1;
      WithEndpointsKeys(m, ts[..n]);
      assert forall t :: t in ts <==> t in ts[..n] || t == ts[n];
    }
  }

  /** Every entry whose key is no task's endpoint is kept. */
  lemma {:induction false} WithEndpointsKeeps(m: map<string, Task>, ts: seq<Task>, k: string)
    requires k in m && forall t :: t in ts ==> Endpoint(t) != k
    ensures k in WithEndpoints(m, ts) && WithEndpoints(m, ts)[k] == m[k]
  {
    if ts != [] {
      var n := |ts| - 1;
      assert ts[n] in ts;
      assert forall t :: t in ts[..n] ==> t in ts;
      WithEndpointsKeeps(m, ts[..n], k);
    }
  }

  /** When no two different tasks share an endpoint, each task's endpoint
      routes to that task. */
  lemma {:induction false} WithEndpointsRoutes(m: map<string, Task>, ts: seq<Task>)
    requires forall i, j :: 0 <= i < |ts| && 0 <= j < |ts| && Endpoint(ts[i]) == Endpoint(ts[j]) ==> ts[i] == ts[j]
    ensures forall t :: t in ts ==> Endpoint(t) in WithEndpoints(m, ts) && WithEndpoints(m, ts)[Endpoint(t)] == t
  {
    if ts != [] {
      var n := |ts| - 1;
      var init := ts[..n];
      assert forall i :: 0 <= i < n ==> init[i] == ts[i];
      WithEndpointsRoutes(m, init);
      forall t | t in ts ensures Endpoint(t) in WithEndpoints(m, ts) && WithEndpoints(m, ts)[Endpoint(t)] == t {
        if t != ts[n] {
          var i :| 0 <= i < n && init[i] == t;
          assert Endpoint(t) != Endpoint(ts[n]);
        }
      }
    }
  }

  /** Routing a node's own tasks sends each task's endpoint to that task. */
  lemma OwnedTasksRoute(m: map<string, Task>, tasks: seq<Task>, id: NodeId, config: Dict)
    requires OwnedTasks(tasks, id, config) && IsDict(TaskEntries(config))
    ensures forall t :: t in tasks ==> Endpoint(t) in WithEndpoints(m, tasks) && WithEndpoints(m, tasks)[Endpoint(t)] == t
  {
    OwnedTasksShareEndpointsOnlyWhenEqual(tasks, id, config);
    WithEndpointsRoutes(m, tasks);
  }

  /** The registration message for a task. */
  function RegisterPayload(t: Task): (r: Value)
    requires HasType(t)
    ensures r.Map? && |r.entries| == 6
  {
    Map([("node", Str(t.node.name)), ("name", Str(t.name)), ("type", TypeOf(t)),
         ("endpoint", Str(Endpoint(t))), ("port", Int(t.node.port)), ("status", Marker(NodeOnline))])
  }

  /** The deregistration message for a task. */
  function DeregisterPayload(t: Task): (r: Value)
    ensures r.Map? && |r.entries| == 3
  {
    Map([("node", Str(t.node.name)), ("name", Str(t.name)), ("status", Marker(NodeTerm))])
  }

  lemma NewTasksStep(id: NodeId, config: Dict, entries: Dict, i: nat)
    requires i < |entries|
    ensures NewTasks(id, config, entries[..i + 1]) == NewTasks(id, config, entries[..i]) + [Task(id, entries[i].0, entries[i].1, config)]
  {
    assert entries[..i + 1][..i] == entries[..i];
  }

  function RegisterPayloads(ts: seq<Task>): (ps: seq<Value>)
    requires forall t :: t in ts ==> HasType(t)
    ensures |ps| == |ts| && forall i :: 0 <= i < |ts| ==> ps[i] == RegisterPayload(ts[i])
  {
    if ts == [] then [] else RegisterPayloads(ts[..|ts| - 1]) + [RegisterPayload(ts[|ts| - 1])]
  }

  function DeregisterPayloads(ts: seq<Task>): (ps: seq<Value>)
    ensures |ps| == |ts| && forall i :: 0 <= i < |ts| ==> ps[i] == DeregisterPayload(ts[i])
  {
    if ts == [] then [] else DeregisterPayloads(ts[..|ts| - 1]) + [DeregisterPayload(ts[|ts| - 1])]
  }

  lemma DeregisterPayloadsStep(ts: seq<Task>, i: nat)
    requires i < |ts|
    ensures DeregisterPayloads(ts[..i + 1]) == DeregisterPayloads(ts[..i]) + [DeregisterPayload(ts[i])]
  {
    assert ts[..i + 1][..i] == ts[..i];
  }

  /** The metadata a task node publishes about itself. */
  function Metadata(): (m: Dict)
    ensures Lookup(m, "node.type") == Str("tasknode")
  {
    [("node.type", Str("tasknode"))]
  }

  /** `n` checks' worth of error messages. */
  function Repeat(s: seq<ConfigError>, n: nat): (r: seq<ConfigError>)
    ensures n > 0 ==> |r| >= |s|
  {
    if n == 0 then [] else Repeat(s, n - 1) + s
  }

  // ---------------------------------------------------------------------
  // The node

  datatype Creation = Created(node: TaskNode) | FeatureDisabled

  /** The node's request handler, whose endpoint table routes requests to tasks. */
  class Handler {
    var endpoints: map<string, Task>

    constructor ()
      ensures endpoints == map[]
    {
      endpoints := map[];
    }
  }

  class TaskNode {
    const id: NodeId
    const config: Dict
    var valid: bool
    var tasks: seq<Task>
    var errors: seq<ConfigError>  // the diagnostics found so far; `ErrorTexts` gives their text
    var warnings: seq<string>
    ghost var checks: nat          // how many configuration checks have run
    ghost var posted: seq<Value>   // messages sent to the controller, in order

    ghost predicate Valid()
      reads this
    {
      && (valid <==> errors == [])
      && warnings == []
      && (checks == 0 ==> errors == [])
      && (checks > 0 ==> TaskEntriesAreMaps(config) && errors == Repeat(ConfigErrors(config), checks))
      && OwnedTasks(tasks, id, config)
      && (tasks != [] ==> checks > 0 && valid)
    }

    /** The node's error messages, one per diagnostic. */
    function ErrorTexts(): (texts: seq<string>)
      reads this
      ensures |texts| == |errors|
      ensures forall i :: 0 <= i < |errors| ==> texts[i] == Message(errors[i])
    {
      Messages(errors)
    }

    /** A node is only created while the task feature is enabled. */
    static method Create(name: string, port: int, config: Dict, featureEnabled: bool) returns (r: Creation)
      ensures r.FeatureDisabled? <==> !featureEnabled
      ensures r.Created? ==>
                && fresh(r.node) && r.node.Valid()
                && r.node.id == NodeId(name, port) && r.node.config == config
                && r.node.valid && r.node.tasks == [] && r.node.errors == [] && r.node.warnings == []
                && r.node.checks == 0 && r.node.posted == []
    {
      if !featureEnabled {
        return FeatureDisabled;
      }
      var node := new TaskNode(name, port, config, featureEnabled);
      r := Created(node);
    }

    /** Builds the node; like `Create`, only while the task feature is enabled. */
    constructor (name: string, port: int, config: Dict, featureEnabled: bool)
      requires featureEnabled
      ensures Valid()
      ensures id == NodeId(name, port) && this.config == config
      ensures valid && tasks == [] && errors == [] && warnings == [] && checks == 0 && posted == []
    {
      id := NodeId(name, port);
      this.config := config;
      valid := true;
      tasks := [];
      errors := [];
      warnings := [];
      checks := 0;
      posted := [];
    }

    static method VerifyParam(taskName: string, param: Value, errs: seq<ConfigError>) returns (errs': seq<ConfigError>)
      ensures errs' == errs + ParamErrors(taskName, [param])
    {
      errs' := errs;
      if !param.List? {
        errs' := errs' + [ParameterNotList(taskName)];
      }
      assert [param][..0] == [];
    }

    /** Checks a task entry's "type": present, a string, and a known type. */
    static method CheckType(taskName: string, data: Dict, errs: seq<ConfigError>) returns (errs': seq<ConfigError>)
      ensures errs' == errs + TypeErrors(taskName, data)
    {
      errs' := errs;
      if !HasKey(data, "type") || !Lookup(data, "type").Str? {
        errs' := errs' + [BadType(taskName)];
      } else if Lookup(data, "type").s !in TaskTypes {
        errs' := errs' + [UnknownType(taskName, Lookup(data, "type").s)];
      }
    }

    /** Checks that a task entry has "commands". */
    static method CheckCommands(taskName: string, data: Dict, errs: seq<ConfigError>) returns (errs': seq<ConfigError>)
      ensures errs' == errs + CommandErrors(taskName, data)
    {
      errs' := errs;
      if !HasKey(data, "commands") {
        errs' := errs' + [NoCommands(taskName)];
      }
    }

    /** Checks that a task entry's "help", when present, is a string. */
    static method CheckHelp(taskName: string, data: Dict, errs: seq<ConfigError>) returns (errs': seq<ConfigError>)
      ensures errs' == errs + HelpErrors(taskName, data)
    {
      errs' := errs;
      if HasKey(data, "help") {
        if !Lookup(data, "help").Str? {
          errs' := errs' + [HelpNotString(taskName)];
        }
      }
    }

    /** Checks one task entry's parameters, appending to `errs`. */
    static method CheckParameters(taskName: string, data: Dict, errs: seq<ConfigError>) returns (errs': seq<ConfigError>)
      ensures errs' == errs + ParameterErrors(taskName, data)
    {
      errs' := errs;
      if HasKey(data, "parameters") {
        var params := Lookup(data, "parameters");
        if !params.List? {
          errs' := errs' + [ParametersNotList(taskName)];
        } else {
          var j := 0;
          while j < |params.items|
            invariant 0 <= j <= |params.items|
            invariant errs' == errs + ParamErrors(taskName, params.items[..j])
          {
            assert params.items[..j + 1][..j] == params.items[..j];
            errs' := VerifyParam(taskName, params.items[j], errs');
            assert [params.items[j]][..0] == [];
            j := j + 1;
          }
          assert params.items[..j] == params.items;
        }
      }
    }

    /** Checks one task entry, appending to `errs`. */
    static method CheckTask(taskName: string, data: Dict, errs: seq<ConfigError>) returns (errs': seq<ConfigError>)
      ensures errs' == errs + TaskErrors(taskName, data)
    {
      errs' := CheckType(taskName, data, errs);
      errs' := CheckCommands(taskName, data, errs');
      errs' := CheckHelp(taskName, data, errs');
      errs' := CheckParameters(taskName, data, errs');
    }

    /** Checks that each required key is present, appending to `errs`. */
    static method CheckRequired(config: Dict, errs: seq<ConfigError>) returns (errs': seq<ConfigError>)
      ensures errs' == errs + MissingKeyErrors(config, RequiredKeys)
    {
      errs' := errs;
      var required := RequiredKeys;
      var k := 0;
      while k < |required|
        invariant 0 <= k <= |required|
        invariant errs' == errs + MissingKeyErrors(config, required[..k])
      {
        assert required[..k + 1][..k] == required[..k];
        if Lookup(config, required[k]).Null? {
          errs' := errs' + [MissingKey(required[k])];
        }
        k := k + 1;
      }
      assert required[..k] == RequiredKeys;
    }

    /** Checks every task entry, in mapping order. */
    static method CheckTaskList(entries: Dict, errs: seq<ConfigError>) returns (errs': seq<ConfigError>)
      requires EntriesAreMaps(entries)
      ensures errs' == errs + TaskListErrors(entries)
    {
      errs' := errs;
      var i := 0;
      while i < |entries|
        invariant 0 <= i <= |entries|
        invariant errs' == errs + TaskListErrors(entries[..i])
      {
        TaskListErrorsStep(entries, i);
        AppendAssoc(errs, TaskListErrors(entries[..i]), TaskErrors(entries[i].0, entries[i].1.entries));
        errs' := CheckTask(entries[i].0, entries[i].1.entries, errs');
        i := i + 1;
      }
      assert entries[..i] == entries;
    }

    /** Checks the "tasks" value and, when it is a mapping, every entry in it. */
    static method CheckTasks(taskMapping: Value, errs: seq<ConfigError>) returns (errs': seq<ConfigError>)
      requires taskMapping.Map? ==> EntriesAreMaps(taskMapping.entries)
      ensures errs' == errs + TasksErrors(taskMapping)
    {
      errs' := errs;
      if Truthy(taskMapping) {
        if !taskMapping.Map? {
          errs' := errs' + [TasksNotMap(taskMapping)];
        } else {
          errs' := CheckTaskList(taskMapping.entries, errs');
        }
      }
    }

    /** Checks the configuration, appending one diagnostic per problem; the
        node stays valid only when this check, and every earlier one, found
        none. Returns the text of all diagnostics so far, and the warnings. */
    method VerifyConfig() returns (errs: seq<string>, warns: seq<string>)
      requires Valid() && TaskEntriesAreMaps(config)
      modifies this`errors, this`valid, this`checks
      ensures Valid()
      ensures errors == old(errors) + ConfigErrors(config)
      ensures valid == (old(valid) && ConfigErrors(config) == [])
      ensures checks == old(checks) + 1
      ensures errs == ErrorTexts() && warns == warnings
    {
      var acc := CheckRequired(config, errors);
      acc := CheckTasks(Lookup(config, "tasks"), acc);
      AppendAssoc(errors, MissingKeyErrors(config, RequiredKeys), TasksErrors(Lookup(config, "tasks")));
      assert acc == errors + ConfigErrors(config);
      assert Repeat(ConfigErrors(config), checks + 1) == Repeat(ConfigErrors(config), checks) + ConfigErrors(config);
      errors := acc;
      if errors != [] {
        valid := false;
      }
      checks := checks + 1;
      errs, warns := Messages(errors), warnings;
    }

    /** Starts the node only when its configuration checks out. */
    method Run() returns (delegated: bool)
      requires Valid() && TaskEntriesAreMaps(config)
      modifies this`errors, this`valid, this`checks
      ensures Valid()
      ensures errors == old(errors) + ConfigErrors(config)
      ensures valid == (old(valid) && ConfigErrors(config) == [])
      ensures checks == old(checks) + 1
      ensures delegated == valid
    {
      var _, _ := VerifyConfig();
      if !valid {
        return false;
      }
      return true;
    }

    /** The configuration check has run and found nothing. */
    lemma CheckedAndValid()
      requires Valid() && checks > 0 && valid
      ensures TaskEntriesAreMaps(config) && ConfigErrors(config) == []
    {
    }

    /** Creates one task per configured entry, in mapping order. */
    method CreateTasks()
      requires Valid() && checks > 0 && valid
      modifies this`tasks
      ensures Valid()
      ensures tasks == old(tasks) + NewTasks(id, config, TaskEntries(config))
    {
      var entries := TaskEntries(config);
      var i := 0;
      while i < |entries|
        invariant 0 <= i <= |entries|
        invariant tasks == old(tasks) + NewTasks(id, config, entries[..i])
        invariant Valid()
      {
        var (taskName, taskDescriptor) := entries[i];
        NewTasksStep(id, config, entries, i);
        assert entries[i] in entries;
        AppendAssoc(old(tasks), NewTasks(id, config, entries[..i]), [Task(id, taskName, taskDescriptor, config)]);
        tasks := tasks + [Task(id, taskName, taskDescriptor, config)];
        i := i + 1;
      }
      assert entries[..i] == entries;
    }

    /** Every owned task has a "type" entry. */
    lemma OwnedTasksHaveTypes()
      requires Valid()
      ensures forall t :: t in tasks ==> HasType(t)
    {
      if tasks != [] {
        CheckedAndValid();
        AcceptedConfigTaskEntries(config);
        forall t | t in tasks ensures HasType(t) {
          var i :| 0 <= i < |TaskEntries(config)| && TaskEntries(config)[i] == (t.name, t.descriptor);
        }
      }
    }

    /** Posts the registration message for a task. */
    method RegisterTask(task: Task)
      requires HasType(task)
      modifies this`posted
      ensures posted == old(posted) + [RegisterPayload(task)]
    {
      posted := posted + [RegisterPayload(task)];
    }

    /** Posts the deregistration message for a task. */
    method DeregisterTask(task: Task)
      modifies this`posted
      ensures posted == old(posted) + [DeregisterPayload(task)]
    {
      posted := posted + [DeregisterPayload(task)];
    }

    /** Routes each task's endpoint to the task and registers it, in order. */
    method RouteAndRegister(handler: Handler, ts: seq<Task>)
      requires forall t :: t in ts ==> HasType(t)
      modifies handler, this`posted
      ensures handler.endpoints == WithEndpoints(old(handler.endpoints), ts)
      ensures posted == old(posted) + RegisterPayloads(ts)
    {
      var i := 0;
      while i < |ts|
        invariant 0 <= i <= |ts|
        invariant handler.endpoints == WithEndpoints(old(handler.endpoints), ts[..i])
        invariant posted == old(posted) + RegisterPayloads(ts[..i])
      {
        var task := ts[i];
        assert ts[..i + 1][..i] == ts[..i];
        assert task in ts;
        handler.endpoints := handler.endpoints[Endpoint(task) := task];
        AppendAssoc(old(posted), RegisterPayloads(ts[..i]), [RegisterPayload(task)]);
        RegisterTask(task);
        i := i + 1;
      }
      assert ts[..i] == ts;
    }

    /** Once started: creates the tasks, routes each task's endpoint to it and
        registers every task, in order. An invalid node does nothing. */
    method AdditionalRegistration(handler: Handler)
      requires Valid() && checks > 0
      modifies this`tasks, this`posted, handler
      ensures Valid()
      ensures !old(valid) ==> tasks == old(tasks) && posted == old(posted) && handler.endpoints == old(handler.endpoints)
      ensures old(valid) ==>
                && tasks == old(tasks) + NewTasks(id, config, TaskEntries(config))
                && (forall t :: t in tasks ==> HasType(t))
                && handler.endpoints == WithEndpoints(old(handler.endpoints), tasks)
                && posted == old(posted) + RegisterPayloads(tasks)
      ensures old(valid) && IsDict(TaskEntries(config)) ==>
                forall t :: t in tasks ==> Endpoint(t) in handler.endpoints && handler.endpoints[Endpoint(t)] == t
    {
      if !valid {
        return;
      }
      CreateTasks();
      OwnedTasksHaveTypes();
      RouteAndRegister(handler, tasks);
      if IsDict(TaskEntries(config)) {
        OwnedTasksRoute(old(handler.endpoints), tasks, id, config);
      }
    }

    /** Deregisters every owned task, in order. */
    method OnShutdown()
      requires Valid()
      modifies this`posted
      ensures posted == old(posted) + DeregisterPayloads(tasks)
    {
      var i := 0;
      while i < |tasks|
        invariant 0 <= i <= |tasks|
        invariant posted == old(posted) + DeregisterPayloads(tasks[..i])
      {
        DeregisterPayloadsStep(tasks, i);
        AppendAssoc(old(posted), DeregisterPayloads(tasks[..i]), [DeregisterPayload(tasks[i])]);
        DeregisterTask(tasks[i]);
        i := i + 1;
      }
      assert tasks[..i] == tasks;
    }
  }
}
