/**
 * One runnable unit of work on a task node: a read-only record of its owning
 * node, its name, its descriptor (the task's entry in the configuration) and
 * the node's whole configuration.
 */
module Tasks {
  import opened Values

  const Request: string := "request"  // a job that the controller can activate
  const Cron: string := "cron"        // a job that runs at a given time

  /** The known task types, in declaration order. */
  const TaskTypes: seq<string> := [Request, Cron]

  /** The identity of the owning node, as a task sees it: the node's name and port. */
  datatype NodeId = NodeId(name: string, port: int)

  datatype Task = Task(node: NodeId, name: string, descriptor: Value, config: Dict)

  lemma TaskTypesAreRequestAndCron()
    ensures TaskTypes == ["request", "cron"]
    ensures forall s :: s in TaskTypes <==> s == "request" || s == "cron"
  {
  }

  /** The descriptor has a "type" entry (reading it otherwise raises KeyError). */
  predicate HasType(t: Task)
  {
    t.descriptor.Map? && HasKey(t.descriptor.entries, "type")
  }

  /** The task's type: the descriptor's "type" entry, unchanged. */
  function TypeOf(t: Task): (v: Value)
    requires HasType(t)
    ensures ("type", v) in t.descriptor.entries
    ensures IsDict(t.descriptor.entries) ==>
              forall w :: ("type", w) in t.descriptor.entries ==> w == v
  {
    var v := Lookup(t.descriptor.entries, "type");
    assert forall w :: IsDict(t.descriptor.entries) && ("type", w) in t.descriptor.entries ==> w == v by {
      forall w | IsDict(t.descriptor.entries) && ("type", w) in t.descriptor.entries
        ensures w == v
      {
        LookupInDict(t.descriptor.entries, "type", w);
      }
    }
    v
  }

  const EndpointPrefix: string := "/task/"

  /** The URL path the node serves this task on and the controller forwards to. */
  function Endpoint(t: Task): (r: string)
    ensures |r| > |EndpointPrefix| + |t.node.name| + |t.name|
    ensures r[..|EndpointPrefix|] == EndpointPrefix
    ensures r[|r| - |t.name|..] == t.name
  {
    EndpointPrefix + t.node.name + "/" + t.name
  }

  /** The endpoint is read back as the prefix, the node name, a slash and the task name. */
  lemma EndpointParts(t: Task)
    ensures var e := Endpoint(t);
            var n := |t.node.name|;
            && |e| == |EndpointPrefix| + n + 1 + |t.name|
            && e[..|EndpointPrefix|] == EndpointPrefix
            && e[|EndpointPrefix|..|EndpointPrefix| + n] == t.node.name
            && e[|EndpointPrefix| + n] == '/'
            && e[|EndpointPrefix| + n + 1..] == t.name
  {
    var e := Endpoint(t);
    var n := |t.node.name|;
    var p := |EndpointPrefix|;
    assert e == EndpointPrefix + (t.node.name + ("/" + t.name));
    assert e[p..] == t.node.name + ("/" + t.name);
    assert e[p + n..] == "/" + t.name;
  }

  /** Within one node (any two tasks whose nodes share a name), endpoints are
      equal exactly when task names are: the endpoint depends on nothing else,
      and no two tasks of one node collide. */
  lemma EndpointInjective(t1: Task, t2: Task)
    requires t1.node.name == t2.node.name
    ensures Endpoint(t1) == Endpoint(t2) <==> t1.name == t2.name
  {
    if Endpoint(t1) == Endpoint(t2) {
      EndpointParts(t1);
      EndpointParts(t2);
    }
  }
}
