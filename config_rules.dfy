/**
 * The rules a task node checks its loaded configuration against before it
 * creates or registers any task. `ConfigErrors` lists, in the order the node
 * reports them, the diagnostics one check of a configuration produces;
 * `WellFormedConfig` states independently which configurations are admissible.
 */
module ConfigRules {
  import opened Values
  import opened Tasks

  /** One diagnostic of the configuration check. */
  datatype ConfigError =
    | MissingKey(key: string)                  // a top-level required key is None
    | TasksNotMap(found: Value)                // a non-empty "tasks" that is not a mapping
    | BadType(task: string)                    // "type" absent or not a string
    | UnknownType(task: string, given: string) // "type" a string outside the known types
    | NoCommands(task: string)
    | HelpNotString(task: string)
    | ParametersNotList(task: string)
    | ParameterNotList(task: string)           // one per parameter that is not a list
  {
    /** The diagnostic concerns one task, named by `task`. */
    predicate IsTaskError()
    {
      !MissingKey? && !TasksNotMap?
    }
  }

  /** The top-level keys a configuration must provide, in checking order. */
  const RequiredKeys: seq<string> := ["name", "tasks"]

  /** One "missing" diagnostic per key of `keys` whose value is None, in order. */
  function MissingKeyErrors(config: Dict, keys: seq<string>): (r: seq<ConfigError>)
    ensures |r| <= |keys|
    ensures forall e :: e in r ==> e.MissingKey? && e.key in keys && Lookup(config, e.key).Null?
  {
    if keys == [] then []
    else
      var key := keys[|keys| - 1];
      MissingKeyErrors(config, keys[..|keys| - 1])
        + (if Lookup(config, key).Null? then [MissingKey(key)] else [])
  }

  /** The type check of one task entry. */
  function TypeErrors(name: string, data: Dict): (r: seq<ConfigError>)
    ensures |r| <= 1
    ensures forall e :: e in r ==> (e.BadType? || e.UnknownType?) && e.task == name
  {
    if !HasKey(data, "type") || !Lookup(data, "type").Str? then [BadType(name)]
    else if Lookup(data, "type").s !in TaskTypes then [UnknownType(name, Lookup(data, "type").s)]
    else []
  }

  /** The commands check of one task entry. */
  function CommandErrors(name: string, data: Dict): (r: seq<ConfigError>)
    ensures |r| <= 1 && forall e :: e in r ==> e == NoCommands(name)
  {
    if !HasKey(data, "commands") then [NoCommands(name)] else []
  }

  /** The help check of one task entry. */
  function HelpErrors(name: string, data: Dict): (r: seq<ConfigError>)
    ensures |r| <= 1 && forall e :: e in r ==> e == HelpNotString(name)
  {
    if HasKey(data, "help") && !Lookup(data, "help").Str? then [HelpNotString(name)] else []
  }

  /** The per-parameter check, applied to the parameters in order. */
  function ParamErrors(name: string, params: seq<Value>): (r: seq<ConfigError>)
    ensures |r| <= |params|
    ensures forall e :: e in r ==> e == ParameterNotList(name)
  {
    if params == [] then []
    else
      ParamErrors(name, params[..|params| - 1])
        + (if !params[|params| - 1].List? then [ParameterNotList(name)] else [])
  }

  /** The parameters check of one task entry. */
  function ParameterErrors(name: string, data: Dict): (r: seq<ConfigError>)
    ensures !HasKey(data, "parameters") ==> r == []
    ensures forall e :: e in r ==> (e.ParametersNotList? || e.ParameterNotList?) && e.task == name
  {
    if !HasKey(data, "parameters") then []
    else if !Lookup(data, "parameters").List? then [ParametersNotList(name)]
    else ParamErrors(name, Lookup(data, "parameters").items)
  }

  /** All diagnostics for one task entry, in checking order. */
  function TaskErrors(name: string, data: Dict): (r: seq<ConfigError>)
    ensures forall e :: e in r ==> e.IsTaskError() && e.task == name
  {
    TypeErrors(name, data) + CommandErrors(name, data) + HelpErrors(name, data) + ParameterErrors(name, data)
  }

  /** Every task entry is itself a mapping. The check reads each entry with
      `in` and indexing and is only defined on mappings. */
  predicate EntriesAreMaps(entries: Dict)
  {
    forall i :: 0 <= i < |entries| ==> entries[i].1.Map?
  }

  predicate TaskEntriesAreMaps(config: Dict)
  {
    var t := Lookup(config, "tasks");
    t.Map? ==> EntriesAreMaps(t.entries)
  }

  /** The diagnostics of every task entry, entry by entry. */
  function TaskListErrors(entries: Dict): (r: seq<ConfigError>)
    requires EntriesAreMaps(entries)
    ensures forall e :: e in r ==> e.IsTaskError()
  {
    if entries == [] then []
    else
      var last := entries[|entries| - 1];
      TaskListErrors(entries[..|entries| - 1]) + TaskErrors(last.0, last.1.entries)
  }

  /** Checking one more entry appends that entry's diagnostics. */
  lemma TaskListErrorsStep(entries: Dict, i: nat)
    requires EntriesAreMaps(entries) && i < |entries|
    ensures TaskListErrors(entries[..i + 1]) == TaskListErrors(entries[..i]) + TaskErrors(entries[i].0, entries[i].1.entries)
  {
    assert entries[..i + 1][..i] == entries[..i];
  }

  /** The check of the "tasks" value: an empty value is skipped. */
  function TasksErrors(tasks: Value): (r: seq<ConfigError>)
    requires tasks.Map? ==> EntriesAreMaps(tasks.entries)
    ensures !Truthy(tasks) ==> r == []
    ensures forall e :: e in r ==> !e.MissingKey?
  {
    if !Truthy(tasks) then []
    else if !tasks.Map? then [TasksNotMap(tasks)]
    else TaskListErrors(tasks.entries)
  }

  /** The diagnostics one check of `config` appends, in order. */
  function ConfigErrors(config: Dict): (r: seq<ConfigError>)
    requires TaskEntriesAreMaps(config)
    ensures forall e :: e in r && e.MissingKey? ==> e.key in RequiredKeys && Lookup(config, e.key).Null?
  {
    MissingKeyErrors(config, RequiredKeys) + TasksErrors(Lookup(config, "tasks"))
  }

  // ---------------------------------------------------------------------
  // Reference definition of an admissible configuration

  predicate WellFormedTask(data: Dict)
  {
    && HasKey(data, "type") && Lookup(data, "type").Str? && Lookup(data, "type").s in TaskTypes
    && HasKey(data, "commands")
    && (HasKey(data, "help") ==> Lookup(data, "help").Str?)
    && (HasKey(data, "parameters") ==>
          && Lookup(data, "parameters").List?
          && forall p :: p in Lookup(data, "parameters").items ==> p.List?)
  }

  predicate WellFormedConfig(config: Dict)
  {
    && !Lookup(config, "name").Null?
    && !Lookup(config, "tasks").Null?
    && var t := Lookup(config, "tasks");
       Truthy(t) ==>
         && t.Map?
         && forall i :: 0 <= i < |t.entries| ==> t.entries[i].1.Map? && WellFormedTask(t.entries[i].1.entries)
  }

  // ---------------------------------------------------------------------
  // Properties of the check

  function NonListIndices(params: seq<Value>): set<int>
  {
    set i | 0 <= i < |params| && !params[i].List?
  }

  /** The parameter check reports exactly one error, naming the task, per
      parameter that is not a list. */
  lemma {:induction false} ParamErrorsCount(name: string, params: seq<Value>)
    ensures |ParamErrors(name, params)| == |NonListIndices(params)|
  {
    if params != [] {
      var n := |params| - 1;
      ParamErrorsCount(name, params[..n]);
      assert NonListIndices(params) == NonListIndices(params[..n]) + (if !params[n].List? then {n} else {});
      assert n !in NonListIndices(params[..n]);
    }
  }

  lemma ParamErrorsEmptyIff(name: string, params: seq<Value>)
    ensures ParamErrors(name, params) == [] <==> forall p :: p in params ==> p.List?
  {
    ParamErrorsCount(name, params);
    if ParamErrors(name, params) == [] {
      forall p | p in params ensures p.List? {
        var i :| 0 <= i < |params| && params[i] == p;
        assert i !in NonListIndices(params);
      }
    } else {
      var i :| i in NonListIndices(params);
      assert params[i] in params;
    }
  }

  /** A task entry draws no diagnostic exactly when it is well formed. */
  lemma TaskErrorsEmptyIff(name: string, data: Dict)
    ensures TaskErrors(name, data) == [] <==> WellFormedTask(data)
  {
    if HasKey(data, "parameters") && Lookup(data, "parameters").List? {
      ParamErrorsEmptyIff(name, Lookup(data, "parameters").items);
    }
  }

  /** How often the parameter checks report a given diagnostic. */
  lemma ParameterErrorsCount(name: string, data: Dict, x: ConfigError)
    ensures var params := Lookup(data, "parameters");
            multiset(ParameterErrors(name, data))[x] ==
              if x == ParametersNotList(name) && HasKey(data, "parameters") && !params.List? then 1
              else if x == ParameterNotList(name) && HasKey(data, "parameters") && params.List? then |NonListIndices(params.items)|
              else 0
  {
    var params := Lookup(data, "parameters");
    if HasKey(data, "parameters") && params.List? {
      var pe := ParamErrors(name, params.items);
      ParamErrorsCount(name, params.items);
      SingleValueCount(pe, ParameterNotList(name));
      if x != ParameterNotList(name) {
        assert x !in pe;
      }
    }
  }

  /** A task's diagnostics are those of its four checks taken together. */
  lemma TaskErrorsCount(name: string, data: Dict, x: ConfigError)
    ensures multiset(TaskErrors(name, data))[x] ==
              multiset(TypeErrors(name, data))[x] + multiset(CommandErrors(name, data))[x]
              + multiset(HelpErrors(name, data))[x] + multiset(ParameterErrors(name, data))[x]
  {
  }

  /** A task draws at most one type diagnostic: BadType when "type" is absent
      or not a string, otherwise UnknownType with the given value when it is
      not a known type. */
  /** Only the type check produces type diagnostics. */
  lemma TypeDiagnosticsFromTypeErrors(name: string, data: Dict, x: ConfigError)
    requires x.BadType? || x.UnknownType?
    ensures multiset(TaskErrors(name, data))[x] == multiset(TypeErrors(name, data))[x]
  {
    TaskErrorsCount(name, data, x);
    ParameterErrorsCount(name, data, x);
    assert x !in CommandErrors(name, data) && x !in HelpErrors(name, data);
  }

  lemma TaskTypeDiagnostics(name: string, data: Dict)
    ensures var errs := multiset(TaskErrors(name, data));
            var bad := !HasKey(data, "type") || !Lookup(data, "type").Str?;
            && errs[BadType(name)] == (if bad then 1 else 0)
            && (forall v :: errs[UnknownType(name, v)] ==
                  (if !bad && v == Lookup(data, "type").s && v !in TaskTypes then 1 else 0))
  {
    TypeDiagnosticsFromTypeErrors(name, data, BadType(name));
    forall v ensures multiset(TaskErrors(name, data))[UnknownType(name, v)] ==
                     (if HasKey(data, "type") && Lookup(data, "type").Str? && v == Lookup(data, "type").s && v !in TaskTypes then 1 else 0)
    {
      TypeDiagnosticsFromTypeErrors(name, data, UnknownType(name, v));
    }
  }

  /** The commands and help checks each add at most one diagnostic naming the task. */
  lemma TaskFieldDiagnostics(name: string, data: Dict)
    ensures var errs := multiset(TaskErrors(name, data));
            && errs[NoCommands(name)] == (if !HasKey(data, "commands") then 1 else 0)
            && errs[HelpNotString(name)] == (if HasKey(data, "help") && !Lookup(data, "help").Str? then 1 else 0)
  {
    TaskErrorsCount(name, data, NoCommands(name));
    ParameterErrorsCount(name, data, NoCommands(name));
    TaskErrorsCount(name, data, HelpNotString(name));
    ParameterErrorsCount(name, data, HelpNotString(name));
  }

  /** The parameters check adds one diagnostic when "parameters" is not a
      list, and otherwise one per parameter that is not a list. */
  lemma TaskParameterDiagnostics(name: string, data: Dict)
    ensures var errs := multiset(TaskErrors(name, data));
            var params := Lookup(data, "parameters");
            && errs[ParametersNotList(name)] == (if HasKey(data, "parameters") && !params.List? then 1 else 0)
            && errs[ParameterNotList(name)] ==
                 (if HasKey(data, "parameters") && params.List? then |NonListIndices(params.items)| else 0)
  {
    TaskErrorsCount(name, data, ParametersNotList(name));
    ParameterErrorsCount(name, data, ParametersNotList(name));
    TaskErrorsCount(name, data, ParameterNotList(name));
    ParameterErrorsCount(name, data, ParameterNotList(name));
  }

  lemma {:induction false} SingleValueCount(s: seq<ConfigError>, x: ConfigError)
    requires forall e :: e in s ==> e == x
    ensures multiset(s)[x] == |s|
  {
    if s != [] {
      var n := |s| - 1;
      assert s == s[..n] + [s[n]];
      assert multiset(s) == multiset(s[..n]) + multiset{s[n]};
      assert s[n] in s;
      assert forall e :: e in s[..n] ==> e in s;
      SingleValueCount(s[..n], x);
    }
  }

  /** Every diagnostic for a list of task entries names one of those tasks. */
  lemma {:induction false} TaskListErrorsNameTasks(entries: Dict)
    requires EntriesAreMaps(entries)
    ensures forall e :: e in TaskListErrors(entries) ==>
              e.IsTaskError() && exists i :: 0 <= i < |entries| && entries[i].0 == e.task
  {
    if entries != [] {
      var n := |entries| - 1;
      TaskListErrorsNameTasks(entries[..n]);
      forall e | e in TaskListErrors(entries)
        ensures e.IsTaskError() && exists i :: 0 <= i < |entries| && entries[i].0 == e.task
      {
        if e in TaskListErrors(entries[..n]) {
          var i :| 0 <= i < n && entries[..n][i].0 == e.task;
          assert entries[i].0 == e.task;
        } else {
          assert entries[n].0 == e.task;
        }
      }
    }
  }

  /** A list of entries draws no diagnostic exactly when no entry does. */
  lemma {:induction false} TaskListErrorsEmptyEach(entries: Dict)
    requires EntriesAreMaps(entries)
    ensures TaskListErrors(entries) == [] <==>
              forall i :: 0 <= i < |entries| ==> TaskErrors(entries[i].0, entries[i].1.entries) == []
  {
    if entries != [] {
      var n := |entries| - 1;
      TaskListErrorsEmptyEach(entries[..n]);
      var front, back := TaskListErrors(entries[..n]), TaskErrors(entries[n].0, entries[n].1.entries);
      assert TaskListErrors(entries) == front + back;
      ConcatEmpty(front, back);
      assert forall i :: 0 <= i < n ==> entries[..n][i] == entries[i];
      if front == [] && back == [] {
        forall i | 0 <= i < |entries| ensures TaskErrors(entries[i].0, entries[i].1.entries) == [] {
          if i < n {
            assert entries[..n][i] == entries[i];
            assert TaskErrors(entries[..n][i].0, entries[..n][i].1.entries) == [];
          } else {
            assert i == n;
          }
        }
      }
    }
  }

  lemma ConcatEmpty<T>(a: seq<T>, b: seq<T>)
    ensures a + b == [] <==> a == [] && b == []
  {
    if a + b == [] { assert |a + b| == |a| + |b|; }
  }

  lemma TaskListErrorsEmptyIff(entries: Dict)
    requires EntriesAreMaps(entries)
    ensures TaskListErrors(entries) == [] <==>
              forall i :: 0 <= i < |entries| ==> WellFormedTask(entries[i].1.entries)
  {
    TaskListErrorsEmptyEach(entries);
    forall i | 0 <= i < |entries|
      ensures TaskErrors(entries[i].0, entries[i].1.entries) == [] <==> WellFormedTask(entries[i].1.entries)
    {
      TaskErrorsEmptyIff(entries[i].0, entries[i].1.entries);
    }
  }

  lemma MissingKeyErrorsOfRequired(config: Dict)
    ensures MissingKeyErrors(config, RequiredKeys) ==
              (if Lookup(config, "name").Null? then [MissingKey("name")] else [])
              + (if Lookup(config, "tasks").Null? then [MissingKey("tasks")] else [])
  {
    assert RequiredKeys[..1] == ["name"];
    assert ["name"][..0] == [];
    calc {
      MissingKeyErrors(config, RequiredKeys);
      MissingKeyErrors(config, ["name"])
        + (if Lookup(config, "tasks").Null? then [MissingKey("tasks")] else []);
      MissingKeyErrors(config, [])
        + (if Lookup(config, "name").Null? then [MissingKey("name")] else [])
        + (if Lookup(config, "tasks").Null? then [MissingKey("tasks")] else []);
    }
  }

  /** A configuration passes the check exactly when it is well formed. */
  lemma ConfigErrorsEmptyIff(config: Dict)
    requires TaskEntriesAreMaps(config)
    ensures ConfigErrors(config) == [] <==> WellFormedConfig(config)
  {
    MissingKeyErrorsOfRequired(config);
    var t := Lookup(config, "tasks");
    if Truthy(t) && t.Map? {
      TaskListErrorsEmptyIff(t.entries);
    }
  }

  /** Each required key whose value is None draws exactly one "missing"
      diagnostic naming it; no other key ever does. */
  lemma MissingKeyCount(config: Dict, key: string)
    requires TaskEntriesAreMaps(config)
    ensures multiset(ConfigErrors(config))[MissingKey(key)] ==
              (if key in RequiredKeys && Lookup(config, key).Null? then 1 else 0)
  {
    MissingKeyErrorsOfRequired(config);
    var t := Lookup(config, "tasks");
    if Truthy(t) && t.Map? {
      TaskListErrorsNameTasks(t.entries);
      assert MissingKey(key) !in TasksErrors(t);
    }
  }

  /** A non-empty "tasks" value that is not a mapping draws exactly one
      diagnostic, and no task is checked. */
  lemma NonMapTasksReported(config: Dict)
    requires TaskEntriesAreMaps(config)
    requires Truthy(Lookup(config, "tasks")) && !Lookup(config, "tasks").Map?
    ensures multiset(ConfigErrors(config))[TasksNotMap(Lookup(config, "tasks"))] == 1
    ensures forall e :: e in ConfigErrors(config) ==> !e.IsTaskError()
  {
    MissingKeyErrorsOfRequired(config);
  }

  /** A configuration with one task of a known type and with commands passes. */
  lemma AcceptsMinimalTask(commands: Value)
    ensures var c := [("name", Str("n")), ("tasks", Map([("t1", Map([("type", Str("request")), ("commands", commands)]))]))];
            TaskEntriesAreMaps(c) && ConfigErrors(c) == []
  {
    var d := [("type", Str("request")), ("commands", commands)];
    var c := [("name", Str("n")), ("tasks", Map([("t1", Map(d))]))];
    assert d[1..] == [("commands", commands)] && d[1..][1..] == [];
    assert Keys(d[1..]) == {"commands"};
    assert Keys(d) == {"type", "commands"};
    assert Lookup(d, "type") == Str("request");
    assert WellFormedTask(d);
    assert Lookup(c, "tasks") == Map([("t1", Map(d))]);
    ConfigErrorsEmptyIff(c);
  }

  /** The same task with an unknown type draws exactly one diagnostic, naming
      the task and the type. */
  lemma RejectsUnknownType(commands: Value)
    ensures var c := [("name", Str("n")), ("tasks", Map([("t1", Map([("type", Str("bogus")), ("commands", commands)]))]))];
            TaskEntriesAreMaps(c) && ConfigErrors(c) == [UnknownType("t1", "bogus")]
  {
    var d := [("type", Str("bogus")), ("commands", commands)];
    var c := [("name", Str("n")), ("tasks", Map([("t1", Map(d))]))];
    assert d[1..] == [("commands", commands)] && d[1..][1..] == [];
    assert Keys(d[1..]) == {"commands"};
    assert Keys(d) == {"type", "commands"};
    assert Lookup(d, "type") == Str("bogus");
    assert Lookup(c, "tasks") == Map([("t1", Map(d))]);
    MissingKeyErrorsOfRequired(c);
    assert TaskListErrors([("t1", Map(d))]) == TaskErrors("t1", d);
  }

  // ---------------------------------------------------------------------
  // Message text

  function TypeName(v: Value): string
  {
    match v
    case Map(_) => "<class 'dict'>"
    case List(_) => "<class 'list'>"
    case Str(_) => "<class 'str'>"
    case Int(_) => "<class 'int'>"
    case Bool(_) => "<class 'bool'>"
    case Null => "<class 'NoneType'>"
    case Marker(_) => "<class 'object'>"
    case Other(_) => "<class 'object'>"
  }

  /** The text the node logs for a diagnostic; a missing key, an unknown type given and a task without commands end the message. */
  function Message(e: ConfigError): (r: string)
    ensures e.MissingKey? ==> |e.key| < |r| && r[|r| - |e.key|..] == e.key
    ensures e.UnknownType? ==> |e.given| < |r| && r[|r| - |e.given|..] == e.given
    ensures e.NoCommands? ==> |e.task| < |r| && r[|r| - |e.task|..] == e.task
  {
    match e
    case MissingKey(k) => "Missing required key: " + k
    case TasksNotMap(v) => "\"tasks\" must be a map. Got: " + TypeName(v)
    case BadType(t) => "Bad task type! Task: " + t + ". Must be a string."
    case UnknownType(t, g) => "Unknown task type! Task: " + t + " - Type: " + g
    case NoCommands(t) => "No commands for " + t
    case HelpNotString(t) => "Task " + t + " - help must be a string"
    case ParametersNotList(t) => "Task " + t + " - parameters must be a list"
    case ParameterNotList(t) => "Task: " + t + " - each parameter must be a list"
  }

  function Messages(es: seq<ConfigError>): (ms: seq<string>)
    ensures |ms| == |es|
    ensures forall i :: 0 <= i < |es| ==> ms[i] == Message(es[i])
  {
    seq(|es|, i requires 0 <= i < |es| => Message(es[i]))
  }

  function Window(s: string, i: nat, n: nat): string
    requires i + n <= |s|
  {
    s[i..i + n]
  }

  /** `part` occurs in `s`. */
  predicate Mentions(s: string, part: string)
  {
    exists i: nat :: i + |part| <= |s| && Window(s, i, |part|) == part
  }

  lemma MentionsMiddle(a: string, b: string, c: string)
    ensures Mentions(a + b + c, b)
  {
    assert Window(a + b + c, |a|, |b|) == b;
  }

  /** Every message names the key or the task it is about; an unknown-type
      message also names the type it was given. */
  lemma MessageNamesSubject(e: ConfigError)
    ensures e.MissingKey? ==> Mentions(Message(e), e.key)
    ensures e.IsTaskError() ==> Mentions(Message(e), e.task)
    ensures e.UnknownType? ==> Mentions(Message(e), e.given)
  {
    match e
    case MissingKey(k) =>
      assert Message(e) == "Missing required key: " + k + "";
      MentionsMiddle("Missing required key: ", k, "");
    case TasksNotMap(_) =>
    case BadType(t) =>
      assert Message(e) == "Bad task type! Task: " + t + ". Must be a string.";
      MentionsMiddle("Bad task type! Task: ", t, ". Must be a string.");
    case UnknownType(t, g) =>
      assert Message(e) == "Unknown task type! Task: " + t + (" - Type: " + g);
      MentionsMiddle("Unknown task type! Task: ", t, " - Type: " + g);
      assert Message(e) == "Unknown task type! Task: " + t + " - Type: " + g + "";
      MentionsMiddle("Unknown task type! Task: " + t + " - Type: ", g, "");
    case NoCommands(t) =>
      assert Message(e) == "No commands for " + t + "";
      MentionsMiddle("No commands for ", t, "");
    case HelpNotString(t) =>
      assert Message(e) == "Task " + t + " - help must be a string";
      MentionsMiddle("Task ", t, " - help must be a string");
    case ParametersNotList(t) =>
      assert Message(e) == "Task " + t + " - parameters must be a list";
      MentionsMiddle("Task ", t, " - parameters must be a list");
    case ParameterNotList(t) =>
      assert Message(e) == "Task: " + t + " - each parameter must be a list";
      MentionsMiddle("Task: ", t, " - each parameter must be a list");
  }
}
