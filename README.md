# hivemind tasks, modelled in Dafny

This project models the task feature of hivemind. Task nodes run named units of work
described by a configuration. A root controller keeps a registry of those tasks and
forwards execution requests to the nodes.

The model has three parts:

- **The task record** (`task.dfy`, module `Tasks`). It holds the two task types and the
  read-only task value. The task's type is its descriptor's `type` entry, and its endpoint
  is `/task/<node>/<name>`.
- **The task node** (`config_rules.dfy`, `tasknode.dfy`).
  - `ConfigRules` states, as pure functions, the diagnostics one configuration check
    produces and the text the node records for each. It also gives an independent
    definition of a well-formed configuration.
  - The class `TaskNodes.TaskNode` holds the node's mutable state: `valid`, the task list,
    and the error and warning lists. It also holds ghost logs of the messages posted to the
    controller.
  - Its methods are the check, task creation, registration, shutdown and the run gate. Each
    is proved against those functions.
- **The controller** (`tables.dfy`, `registry.dfy`, `feature.dfy`).
  - `Tables` holds the two record shapes and the `pending` default.
  - `Registry` describes every handler as a function from the registry before a request to
    the response and the registry after it.
  - The class `Feature.TaskFeature` implements the handlers over a mutable registry and is
    proved against those functions.
  - `Feature.NodesToTasks` groups the registry's tasks by node for the index page.

`wire_contract.dfy` (module `WireContract`) puts the two sides together. A node's payloads
pass the controller's key checks and reach the intended handler. A registered task can be
executed at the endpoint its node serves. A node's shutdown messages remove exactly its
tasks' records.

The controller's database is a map from (node name, task name) to the task's record. The
nodes it knows are a set of names. Calls the controller queues for a node, and messages a
node posts to the controller, are appended to ghost logs. A failed `assert` in a
controller handler becomes a `Fail` response and leaves the registry as it was.
Registration goes through `Registry.Upsert`, the corrected update-or-create keyed by that
pair (see Findings). The get-or-create the code performs is modelled as written by
`Registry.GetOrCreateRows`.

## Model

| member | source | states |
|---|---|---|
| Tasks.TaskTypesAreRequestAndCron | hivemind_tasks/task.py:26-32 | the known task types are exactly "request" and "cron", in that order |
| Tasks.TypeOf | hivemind_tasks/task.py:56-58 | a task's type is the value its descriptor holds under "type", unchanged, and the only such value when the descriptor is a dictionary |
| Tasks.Endpoint | hivemind_tasks/task.py:61-63 | the endpoint starts with "/task/", is longer than that prefix, the node name and the task name together, and ends with the task name |
| Tasks.EndpointParts | hivemind_tasks/task.py:61-63 | the endpoint is "/task/", then the node name, a slash and the task name, and nothing else |
| Tasks.EndpointInjective | hivemind_tasks/task.py:61-63 | for two tasks of one node, the endpoints are equal exactly when the task names are |
| Tables.KeyedStoreIsUniquePerPair | hivemind_tasks/tables.py:48-50 | a registry keyed by (node, name) holds at most one record per pair, as the declared uniqueness intends |
| TaskNodes.TaskNode.Create | hivemind_tasks/tasknode.py:66-86 | with the feature disabled no node is created; otherwise the new node is valid, with no tasks, errors or warnings, and has posted nothing |
| TaskNodes.TaskNode.constructor | hivemind_tasks/tasknode.py:66-86 | only with the feature enabled; initial state: valid, with empty task, error and warning lists |
| TaskNodes.TaskNode.VerifyParam | hivemind_tasks/tasknode.py:232-245 | a parameter that is not a list appends one error naming the task; any other parameter appends nothing |
| TaskNodes.TaskNode.CheckType | hivemind_tasks/tasknode.py:194-199 | appends exactly the type diagnostic of the task entry |
| TaskNodes.TaskNode.CheckCommands | hivemind_tasks/tasknode.py:201-202 | appends exactly the missing-commands diagnostic of the task entry |
| TaskNodes.TaskNode.CheckHelp | hivemind_tasks/tasknode.py:204-206 | appends exactly the help diagnostic of the task entry |
| TaskNodes.TaskNode.CheckParameters | hivemind_tasks/tasknode.py:208-213 | the loop over the parameters appends exactly the parameters diagnostics of the task entry, in order |
| TaskNodes.TaskNode.CheckTask | hivemind_tasks/tasknode.py:194-213 | appends exactly the diagnostics of one task entry, in checking order |
| TaskNodes.TaskNode.CheckRequired | hivemind_tasks/tasknode.py:178-182 | the loop over the required keys appends one missing-key diagnostic per required key whose value is None |
| TaskNodes.TaskNode.CheckTaskList | hivemind_tasks/tasknode.py:192-213 | the loop over the task entries appends exactly their diagnostics, entry by entry, in mapping order |
| TaskNodes.TaskNode.CheckTasks | hivemind_tasks/tasknode.py:187-213 | an empty "tasks" adds nothing, a non-empty non-mapping adds one diagnostic, and a mapping has every entry checked |
| TaskNodes.TaskNode.VerifyConfig | hivemind_tasks/tasknode.py:168-229 | errors accumulate: one check appends exactly the configuration's diagnostics; the node stays valid only if no check found any, so an invalid node never becomes valid again; returns the texts and the (empty) warnings |
| TaskNodes.TaskNode.ErrorTexts | hivemind_tasks/tasknode.py:148-149 | the node's error list as text: one message per diagnostic, in order |
| TaskNodes.TaskNode.Run | hivemind_tasks/tasknode.py:114-122 | runs the check, then starts the node exactly when it is still valid |
| TaskNodes.TaskNode.CheckedAndValid | hivemind_tasks/tasknode.py:119-122 | a node that has been checked and is valid has a configuration without diagnostics |
| TaskNodes.TaskNode.CreateTasks | hivemind_tasks/tasknode.py:156-165 | appends one task per configured entry, in mapping order, with that entry's name and descriptor and this node as owner |
| TaskNodes.TaskNode.OwnedTasksHaveTypes | hivemind_tasks/tasknode.py:156-165 | every task a valid node created has a "type" entry |
| TaskNodes.TaskNode.RegisterTask | hivemind_tasks/tasknode.py:249-265 | posts exactly one message, the task's registration payload |
| TaskNodes.TaskNode.DeregisterTask | hivemind_tasks/tasknode.py:268-278 | posts exactly one message, the task's deregistration payload |
| TaskNodes.TaskNode.RouteAndRegister | hivemind_tasks/tasknode.py:102-110 | each task's endpoint is mapped to the task and one registration is posted per task, in order |
| TaskNodes.TaskNode.AdditionalRegistration | hivemind_tasks/tasknode.py:91-111 | an invalid node creates, routes and posts nothing; a valid one creates its tasks, routes every endpoint to its own task and posts one registration per task, in order |
| TaskNodes.TaskNode.OnShutdown | hivemind_tasks/tasknode.py:135-140 | posts one deregistration per owned task, in order |
| TaskNodes.TaskEntries | hivemind_tasks/tasknode.py:162 | a non-empty list of entries is exactly the entries of the "tasks" mapping |
| TaskNodes.TaskItemsAsWritten | hivemind_tasks/tasknode.py:162 | listing the entries with `.items()` succeeds exactly when "tasks" is a mapping, and then gives those entries |
| TaskNodes.NewTasks | hivemind_tasks/tasknode.py:162-165 | one task per entry, in order, owned by the node, with the entry's name and descriptor |
| TaskNodes.ValidatorAdmitsEmptyListTasks | hivemind_tasks/tasknode.py:187-190 | as written, the check accepts an empty list as "tasks", on which listing the task entries fails |
| TaskNodes.AcceptedConfigTaskEntries | hivemind_tasks/tasknode.py:162-165 | for every accepted configuration the task entries are defined, agree with the source's listing wherever it succeeds, and are all well-formed tasks |
| TaskNodes.OwnedTasksShareEndpointsOnlyWhenEqual | hivemind_tasks/tasknode.py:102-103 | among a node's own tasks, two tasks with the same endpoint are the same task |
| TaskNodes.WithEndpointsKeys | hivemind_tasks/tasknode.py:102-103 | the endpoint table gains exactly the tasks' endpoints |
| TaskNodes.WithEndpointsKeeps | hivemind_tasks/tasknode.py:102-103 | entries under other paths are left as they were |
| TaskNodes.WithEndpointsRoutes | hivemind_tasks/tasknode.py:102-103 | when no two different tasks share an endpoint, each task's endpoint leads to that task |
| TaskNodes.OwnedTasksRoute | hivemind_tasks/tasknode.py:102-103 | after routing a node's own tasks, each endpoint leads to its own task |
| TaskNodes.RegisterPayload | hivemind_tasks/tasknode.py:258-265 | the registration message is a mapping of six fields; their values are stated by the WireContract.RegisterPayload lemmas |
| TaskNodes.DeregisterPayload | hivemind_tasks/tasknode.py:274-278 | the deregistration message is a mapping of three fields; their values are stated by WireContract.DeregisterPayloadFields |
| TaskNodes.RegisterPayloads | hivemind_tasks/tasknode.py:102-110 | one registration payload per task, in task order |
| TaskNodes.DeregisterPayloads | hivemind_tasks/tasknode.py:139-140 | one deregistration payload per task, in task order |
| TaskNodes.Metadata | hivemind_tasks/tasknode.py:125-132 | the node's metadata marks it as a task node |
| ConfigRules.ConfigErrors | hivemind_tasks/tasknode.py:178-213 | every missing-key diagnostic of a configuration names a required key whose value is None |
| ConfigRules.MissingKeyErrors | hivemind_tasks/tasknode.py:178-182 | at most one diagnostic per checked key, each naming a checked key whose value is None |
| ConfigRules.TasksErrors | hivemind_tasks/tasknode.py:187-213 | an empty "tasks" draws nothing, and the "tasks" checks never report a missing key |
| ConfigRules.TaskListErrors | hivemind_tasks/tasknode.py:192-213 | every diagnostic of the task entries is about a task |
| ConfigRules.TaskErrors | hivemind_tasks/tasknode.py:194-213 | every diagnostic for a task entry is about a task and names that task |
| ConfigRules.TypeErrors | hivemind_tasks/tasknode.py:194-199 | at most one diagnostic, a bad or unknown type naming the task |
| ConfigRules.CommandErrors | hivemind_tasks/tasknode.py:201-202 | at most one diagnostic, the task's missing-commands diagnostic |
| ConfigRules.HelpErrors | hivemind_tasks/tasknode.py:204-206 | at most one diagnostic, the task's non-string-help diagnostic |
| ConfigRules.ParameterErrors | hivemind_tasks/tasknode.py:208-213 | no "parameters" draws nothing; every diagnostic is a parameters diagnostic naming the task |
| ConfigRules.ParamErrors | hivemind_tasks/tasknode.py:241-243 | at most one diagnostic per parameter, each the per-parameter diagnostic naming the task |
| ConfigRules.MissingKeyErrorsOfRequired | hivemind_tasks/tasknode.py:178-182 | the required-key check reports "name", then "tasks", each exactly when its value is None |
| ConfigRules.MissingKeyCount | hivemind_tasks/tasknode.py:178-182 | each required key whose value is None draws exactly one missing-key diagnostic, and no other key ever draws one |
| ConfigRules.NonMapTasksReported | hivemind_tasks/tasknode.py:187-190 | a non-empty "tasks" that is not a mapping draws exactly one diagnostic, and no per-task check runs |
| ConfigRules.TaskTypeDiagnostics | hivemind_tasks/tasknode.py:194-199 | at most one type diagnostic per task: a bad type when "type" is absent or not a string, otherwise an unknown type naming the given value when it is not a known type |
| ConfigRules.TaskFieldDiagnostics | hivemind_tasks/tasknode.py:201-206 | missing "commands" and a non-string "help" each draw exactly one diagnostic naming the task |
| ConfigRules.TaskParameterDiagnostics | hivemind_tasks/tasknode.py:208-213 | a non-list "parameters" draws one diagnostic; otherwise each parameter that is not a list draws one |
| ConfigRules.ParameterErrorsCount | hivemind_tasks/tasknode.py:208-213 | how often the parameters checks report each diagnostic |
| ConfigRules.ParamErrorsCount | hivemind_tasks/tasknode.py:241-243 | the per-parameter check reports one diagnostic, naming the task, per parameter that is not a list |
| ConfigRules.ParamErrorsEmptyIff | hivemind_tasks/tasknode.py:208-213 | the parameter checks are silent exactly when every parameter is a list |
| ConfigRules.TaskErrorsCount | hivemind_tasks/tasknode.py:194-213 | a task's diagnostics are those of its four checks together |
| ConfigRules.TypeDiagnosticsFromTypeErrors | hivemind_tasks/tasknode.py:194-213 | of a task's four checks, only the type check reports type diagnostics |
| ConfigRules.TaskErrorsEmptyIff | hivemind_tasks/tasknode.py:194-213 | a task entry draws no diagnostic exactly when it is well formed |
| ConfigRules.TaskListErrorsNameTasks | hivemind_tasks/tasknode.py:192-213 | every diagnostic for a list of entries names one of those tasks |
| ConfigRules.TaskListErrorsEmptyEach | hivemind_tasks/tasknode.py:192-213 | a list of entries draws no diagnostic exactly when no single entry draws one |
| ConfigRules.TaskListErrorsEmptyIff | hivemind_tasks/tasknode.py:192-213 | a list of entries draws no diagnostic exactly when every entry is well formed |
| ConfigRules.ConfigErrorsEmptyIff | hivemind_tasks/tasknode.py:178-213 | a configuration passes the check exactly when it is well formed |
| ConfigRules.AcceptsMinimalTask | hivemind_tasks/tasknode.py:192-213 | a configuration with one task of a known type and with commands passes |
| ConfigRules.RejectsUnknownType | hivemind_tasks/tasknode.py:197-199 | the same task with an unknown type draws exactly one diagnostic, naming the task and the type |
| ConfigRules.Message | hivemind_tasks/tasknode.py:182-242 | the message for a missing key ends with the key, the one for an unknown type ends with the type given, and the one for a task without commands ends with the task name |
| ConfigRules.MessageNamesSubject | hivemind_tasks/tasknode.py:182-242 | every message names the key or the task it is about, and an unknown-type message also names the type given |
| Registry.AllPresent | hivemind_tasks/__init__.py:253-255 | true exactly when every required key is in the payload |
| Registry.ValidateKeys | hivemind_tasks/__init__.py:245-255 | passes exactly when the payload is a mapping holding every required key; otherwise says which of the two checks failed |
| Registry.GetNode | hivemind_tasks/__init__.py:290-291 | a node is found exactly when the payload names a known node by name |
| Registry.NodeAndTask | hivemind_tasks/__init__.py:222-242 | None exactly when the node is unknown or it has no task of that name; otherwise the node and that task's record |
| Registry.NodeAndTaskMatches | hivemind_tasks/__init__.py:235-242 | a record the lookup finds belongs to the node asked for and has the name asked for |
| Registry.GetOrCreateRows | hivemind_tasks/__init__.py:299-306 | as written: the rows only grow, by at most one row, and a new row is pending |
| Registry.GetOrCreateRowsFinds | hivemind_tasks/__init__.py:299-306 | as written, get-or-create leaves a row matching all four fields, adds at most one pending row, and a repeated identical call changes nothing |
| Registry.GetOrCreateRowsDuplicatesPair | hivemind_tasks/__init__.py:299-306 | as written, registering a task again with another type adds a second row for the same (node, name) |
| Registry.Upsert | hivemind_tasks/__init__.py:299-306 | corrected update-or-create (see Findings), keyed by (node, name): afterwards the pair has a record and no other key appears |
| Registry.UpsertRecord | hivemind_tasks/__init__.py:299-306 | corrected update-or-create: the record holds the payload's node, name, endpoint and type; a new record is pending, a repeated registration keeps its state; other records are unchanged |
| Registry.UpsertIdempotent | hivemind_tasks/__init__.py:299-306 | registering the same values twice leaves what registering them once leaves |
| Registry.UpsertKeyedByPair | hivemind_tasks/tables.py:48-50 | registration keeps every record under its own (node, name) |
| Registry.RegisterStep | hivemind_tasks/__init__.py:283-318 | a refused registration leaves the registry unchanged; an accepted one answers an empty body and removes no record |
| Registry.DeregisterStep | hivemind_tasks/__init__.py:258-280 | a refused deregistration changes nothing and an accepted one answers None; either way at most one record goes and no record is altered |
| Registry.RegisterEndpoint | hivemind_tasks/__init__.py:87-95 | a failure leaves the registry unchanged; success needs a mapping and answers {'result': True} to a deregistration and {} to a registration |
| Registry.ExecuteStep | hivemind_tasks/__init__.py:118-148 | at most one call is queued, exactly when the request succeeds, and success answers {'result': True} |
| Registry.FailedRequestsChangeNothing | hivemind_tasks/__init__.py:258-291 | a failed registration or deregistration leaves the registry unchanged, and an unknown node makes it fail |
| Registry.RegistrationRecords | hivemind_tasks/__init__.py:283-318 | with the corrected update-or-create, a known node's registration answers an empty body and leaves one record for the pair with the payload's endpoint and type, pending when new; nothing else changes |
| Registry.RegistrationIdempotent | hivemind_tasks/__init__.py:297-318 | sending the same registration twice leaves what sending it once leaves |
| Registry.DeregistrationRemoves | hivemind_tasks/__init__.py:258-280 | a known node's deregistration answers {'result': True} and removes exactly that pair's record; without one it is a no-op |
| Registry.RegisterEndpointKeyedByPair | hivemind_tasks/__init__.py:87-95 | every request to the registration endpoint keeps each record under its own (node, name) |
| Registry.ExecutionDispatchesOnce | hivemind_tasks/__init__.py:118-148 | a call is queued exactly when execution succeeds, and then exactly one: to the named node, at the registered endpoint, with the request's parameters |
| Feature.TaskFeature.Register | hivemind_tasks/__init__.py:283-318 | with the corrected update-or-create, the handler's response and new registry are those of the registration function, and the registry stays keyed by pair |
| Feature.TaskFeature.Deregister | hivemind_tasks/__init__.py:258-280 | the handler's response and new registry are those of the deregistration function |
| Feature.TaskFeature.RegisterTask | hivemind_tasks/__init__.py:87-95 | routes on the payload's status: NODE_TERM is a deregistration answered with {'result': True}, anything else a registration |
| Feature.TaskFeature.ExecuteTask | hivemind_tasks/__init__.py:118-148 | the response and the calls queued are those of the execution function |
| Feature.TasksOf | hivemind_tasks/__init__.py:211-213 | a node's group is no longer than the query result, and every task in it names that node |
| Feature.TasksOfMembers | hivemind_tasks/__init__.py:211-213 | a node's group holds exactly the tasks naming that node |
| Feature.TasksOfAppend | hivemind_tasks/__init__.py:211-213 | grouping keeps query order: it distributes over concatenation |
| Feature.TasksOfCount | hivemind_tasks/__init__.py:211-213 | a node's group holds one entry per task naming it |
| Feature.GroupByNode | hivemind_tasks/__init__.py:211-213 | the loop maps each node that has tasks to its tasks, in query order |
| Feature.NodesToTasks | hivemind_tasks/__init__.py:192-219 | no task-node ids give {}; otherwise every node maps to exactly its tasks, in query order, and a node without tasks to none |
| WireContract.RegisterPayloadIdentity | hivemind_tasks/tasknode.py:258-261 | the registration payload carries the task's node name, name and type |
| WireContract.RegisterPayloadEndpoint | hivemind_tasks/tasknode.py:262 | the registration payload carries the endpoint the node routes to the task |
| WireContract.RegisterPayloadStatus | hivemind_tasks/tasknode.py:263-264 | the registration payload carries the node's port and the status NODE_ONLINE |
| WireContract.RegisterPayloadKeys | hivemind_tasks/__init__.py:287-288 | the registration payload is a mapping holding every key the controller requires |
| WireContract.DeregisterPayloadFields | hivemind_tasks/tasknode.py:274-278 | the deregistration payload holds the required keys, the node and task names and the status NODE_TERM |
| WireContract.RegistrationAccepted | hivemind_tasks/__init__.py:87-95 | a task's registration reaches the registration handler, succeeds, and leaves a record with the task's endpoint and type |
| WireContract.DeregistrationAccepted | hivemind_tasks/__init__.py:87-92 | a task's deregistration reaches the deregistration handler, answers {'result': True} and removes exactly the task's record |
| WireContract.ExecutionRequestFields | hivemind_tasks/__init__.py:124-125 | an execution request naming the task passes the key check |
| WireContract.RegisteredTaskExecutes | hivemind_tasks/__init__.py:118-148 | once registered, executing a task queues exactly one call to its node, at the endpoint the node serves it on |
| WireContract.ShutdownRemovesTasks | hivemind_tasks/tasknode.py:135-140 | a node's shutdown messages, handled in order, leave the registry minus exactly its tasks' records |
| WireContract.RegistrationKeepsEarlier | hivemind_tasks/tasknode.py:102-110 | registering the next of a node's tasks keeps the records of the tasks registered before it |
| WireContract.StartupRegistersTasks | hivemind_tasks/tasknode.py:102-110 | a node's registrations, handled in order, leave a record for each of its tasks at that task's endpoint, with its type |

## Left out

- HTTP handling (request bodies, JSON responses, status codes), the templated index view, static files and the `endpoints()` / `tables()` plugin lists are not part of this model. Response bodies are values, and a failed handler is a `Fail` result naming the check that failed.
- Sending messages to the controller and queueing calls to nodes are network calls into the hivemind core library, which is not part of this model. They are appended to the ghost logs `posted` and `dispatched`. The node ignores the controller's answer to a registration, and so does the model.
- The registration lock only serves concurrency. Get-or-create is one atomic step.
- The database query layer becomes a map keyed by (node name, task name) and a set of known node names. Nodes are identified by name throughout, so a node's database id and a task's `node_pk` both become the node's name.
- Loading the YAML configuration, resolving its path and the platform dictionary type are file handling. The loaded configuration is a parameter, and a `pdict` counts as a mapping.
- The process-wide feature switch is the `featureEnabled` parameter of `Create` and of the constructor. `Create` turns the `EnvironmentError` into the `FeatureDisabled` result; the constructor requires the feature to be enabled.
- Logging and the `chatty` flag, which only affects logging, are left out.
- The placeholder handlers `tasks_update` and `task_data_dispatch`, and `_Task.function`, which only prints, have no behaviour to model.
- Starting the node (the base class's `run`) is outside this model. `Run` returns whether it would be started.
- The unused `default_port` read in `deregister_task` is left out.
- Every check is an `assert`. The model does not cover running Python with assertions disabled, where the checks vanish.
- A `TaskInfo` is a record shape only. Nothing in the core reads or writes one.
- TaskNodes.TaskNode.VerifyConfig: requires every task entry to be a mapping. For an entry of another kind the source's `in` tests membership instead: substring for a string, element for a list, and `None` or a number raises at the first membership test. A string or list entry draws the bad-type diagnostic, and the missing-commands one unless "commands" is a member. If "type", "help" or "parameters" is a member, the indexing that follows that test raises.
- TaskNodes.TaskNode.CreateTasks: lists entries through the corrected `TaskEntries`. On a falsy "tasks" that is not a mapping (`[]`, `""`, `0`, `false`), which the check accepts, the source raises at `.items()` and the model creates nothing (see Findings).
- TaskNodes.TaskNode.AdditionalRegistration: requires the check to have run once, since the source reaches it only through `run`. Its routing guarantee is stated for configurations whose task mapping has no repeated key, which every loaded mapping satisfies. It lists entries through the corrected `TaskEntries`. On a falsy "tasks" that is not a mapping, which the check accepts, the source raises at `.items()`, while the model creates, routes and posts nothing (see Findings).
- WireContract.StartupRegistersTasks: requires the tasks to have distinct names, as the entries of one loaded mapping do.
- Registry.RegisterStep: the handler registers through `Upsert`, the corrected update-or-create keyed by (node, name). On re-registration it overwrites the record's endpoint and type and keeps its state. The code as written matches on all four fields; that behaviour is `GetOrCreateRows` (see Findings).
- ConfigRules.Message: for a "tasks" value that is not a mapping, the Python type name is given for the value kinds modelled. An unmodelled scalar gets a placeholder type name.

## Findings

| source | as written | input that shows it | evidently intended | confidence | as-written member | corrected member |
|---|---|---|---|---|---|---|
| hivemind_tasks/tasknode.py:187-190 | the "tasks" check skips any falsy value, so an empty list passes, and task creation then calls `.items()` on it | configuration `{name: "n", tasks: []}` | an empty "tasks" of any kind means no tasks | not executed | TaskNodes.ValidatorAdmitsEmptyListTasks | TaskNodes.AcceptedConfigTaskEntries |
| hivemind_tasks/__init__.py:299-306 | get-or-create matches on node, name, endpoint and type, so re-registering a task whose type changed creates a second record for the same (node, name); the (node, name) uniqueness is declared at tables.py:48-50 under the misspelled name `unqiue_constraints`, so nothing in this code enforces it | register (n, t, /task/n/t, "request"), then (n, t, /task/n/t, "cron") | one record per (node, name), updated in place | not executed | Registry.GetOrCreateRowsDuplicatesPair | Registry.UpsertKeyedByPair |
