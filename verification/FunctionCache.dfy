/** The cache of function records built from the metadata topic, and the worker ids looked up for
    their instances (src/logclient/reader.go). */
module FunctionCache {
  import opened Text

  /** Three minutes, in nanoseconds. */
  const QUERY_TIMEOUT := 180_000_000_000

  datatype Metadata = Metadata(tenant: string, namespace: string, name: string, component: string, parallelism: int)

  datatype InstanceStatus = InstanceStatus(id: int, running: bool, lastQueryTime: int, workerId: string)

  datatype FunctionType = FunctionType(details: Metadata, instances: map<int, InstanceStatus>)

  datatype FuncInstance = FuncInstance(instanceId: int, running: bool, workerId: string)

  type Functions = map<string, FunctionType>

  datatype Answer = Worker(record: FunctionType, workerId: string) | NotFoundFunction | StatusFailed

  function KeyOf(m: Metadata): string {
    m.tenant + m.namespace + m.name
  }

  // ---- What the operations do to the map ----

  function Parsed(functions: Functions, m: Metadata): Functions {
    if KeyOf(m) in functions then functions else functions[KeyOf(m) := FunctionType(m, map[])]
  }

  function WithWorker(functions: Functions, key: string, status: InstanceStatus): Functions {
    if key in functions then
      functions[key := functions[key].(instances := functions[key].instances[status.id := status])]
    else functions
  }

  predicate Recent(functions: Functions, key: string, instance: int, now: int) {
    && key in functions && instance in functions[key].instances
    && now - functions[key].instances[instance].lastQueryTime < QUERY_TIMEOUT
  }

  function FindInstance(instances: seq<FuncInstance>, instance: int): Option<FuncInstance> {
    if instances == [] then None
    else if instances[0].instanceId == instance then Some(instances[0])
    else FindInstance(instances[1..], instance)
  }

  /** `reply` is what a status query would bring, None when it would fail. The record returned shares
      its instances with the map, so it shows the new entry. */
  function AfterLookup(functions: Functions, key: string, instance: int, now: int,
                       reply: Option<seq<FuncInstance>>): (Functions, Answer) {
    if key !in functions then (functions, NotFoundFunction)
    else if Recent(functions, key, instance, now) then
      (functions, Worker(functions[key], functions[key].instances[instance].workerId))
    else if reply.None? then (functions, StatusFailed)
    else
      match FindInstance(reply.value, instance)
      case None => (functions, NotFoundFunction)
      case Some(v) =>
        var updated := WithWorker(functions, key, InstanceStatus(instance, v.running, now, v.workerId));
        (updated, Worker(updated[key], v.workerId))
  }

  class FunctionMap {
    var functions: Functions

    constructor ()
      ensures functions == map[]
    {
      functions := map[];
    }

    method WriteFunctionMapIfNotExist(key: string, f: FunctionType)
      modifies this
      ensures functions == if key in old(functions) then old(functions) else old(functions)[key := f]
    {
      if key !in functions {
        functions := functions[key := f];
      }
    }

    method ParseServiceRequest(m: Metadata)
      modifies this
      ensures functions == Parsed(old(functions), m)
    {
      WriteFunctionMapIfNotExist(m.tenant + m.namespace + m.name, FunctionType(m, map[]));
    }

    method UpdateWorkerIDInFunctionMap(key: string, workerId: string, instance: int, running: bool, now: int)
      modifies this
      ensures functions == WithWorker(old(functions), key, InstanceStatus(instance, running, now, workerId))
    {
      var status := InstanceStatus(instance, running, now, workerId);
      if key in functions {
        var f := functions[key];
        f := f.(instances := f.instances[instance := status]);
        functions := functions[key := f];
      }
    }

    method GetFunctionWorkerID(key: string, instance: int, now: int, reply: Option<seq<FuncInstance>>) returns (a: Answer)
      modifies this
      ensures (functions, a) == AfterLookup(old(functions), key, instance, now, reply)
    {
      if key !in functions {
        return NotFoundFunction;
      }
      var record := functions[key];
      if instance in record.instances {
        var status := record.instances[instance];
        if now - status.lastQueryTime < QUERY_TIMEOUT {
          return Worker(record, status.workerId);
        }
      }
      if reply.None? {
        return StatusFailed;
      }
      var instances := reply.value;
      for i := 0 to |instances|
        invariant functions == old(functions)
        invariant FindInstance(instances, instance) == FindInstance(instances[i..], instance)
      {
        var v := instances[i];
        assert instances[i..][1..] == instances[i + 1..];
        if v.instanceId == instance {
          UpdateWorkerIDInFunctionMap(key, v.workerId, instance, v.running, now);
          return Worker(functions[key], v.workerId);
        }
      }
      return NotFoundFunction;
    }
  }

  // ---- What a lookup answers ----

  /** The first entry of a reply about the instance. */
  ghost predicate FirstEntry(reply: seq<FuncInstance>, instance: int, k: nat) {
    k < |reply| && reply[k].instanceId == instance && forall j :: 0 <= j < k ==> reply[j].instanceId != instance
  }

  lemma {:induction false} FindInstanceIs(reply: seq<FuncInstance>, instance: int)
    ensures forall k: nat :: FirstEntry(reply, instance, k) ==> FindInstance(reply, instance) == Some(reply[k])
    ensures FindInstance(reply, instance).None? <==> forall k :: 0 <= k < |reply| ==> reply[k].instanceId != instance
  {
    if reply != [] && reply[0].instanceId != instance {
      var rest := reply[1..];
      FindInstanceIs(rest, instance);
      forall k: nat | FirstEntry(reply, instance, k)
        ensures FindInstance(reply, instance) == Some(reply[k])
      {
        assert FirstEntry(rest, instance, k - 1);
      }
      assert forall k :: 0 <= k < |rest| ==> rest[k] == reply[k + 1];
    }
  }

  /** An entry for the instance less than three minutes old. */
  ghost predicate AskedLately(functions: Functions, key: string, instance: int, now: int) {
    && key in functions && instance in functions[key].instances
    && now - functions[key].instances[instance].lastQueryTime < 180_000_000_000
  }

  /** Without a query: an unknown key is not found, a recent entry is answered, and nothing changes. */
  lemma LookupWithoutQuery(functions: Functions, key: string, instance: int, now: int, reply: Option<seq<FuncInstance>>)
    requires key !in functions || AskedLately(functions, key, instance, now)
    ensures var (after, a) := AfterLookup(functions, key, instance, now, reply);
            && after == functions
            && (key !in functions ==> a == NotFoundFunction)
            && (key in functions ==> a == Worker(functions[key], functions[key].instances[instance].workerId))
  {
  }

  /** With one: the worker is that of the reply's first entry about the instance, and is put on record
      for it alone; without such an entry the function counts as not found, and nothing changes. */
  lemma LookupWithQuery(functions: Functions, key: string, instance: int, now: int, reply: Option<seq<FuncInstance>>)
    requires key in functions && !AskedLately(functions, key, instance, now)
    ensures var (after, a) := AfterLookup(functions, key, instance, now, reply);
            && (a == StatusFailed <==> reply.None?)
            && (a == NotFoundFunction <==>
                  reply.Some? && forall k :: 0 <= k < |reply.value| ==> reply.value[k].instanceId != instance)
            && (!a.Worker? ==> after == functions)
            && (a.Worker? ==>
                  && after.Keys == functions.Keys
                  && (forall other :: other in functions && other != key ==> after[other] == functions[other])
                  && a.record == after[key] && after[key].details == functions[key].details)
    ensures var (after, a) := AfterLookup(functions, key, instance, now, reply);
            reply.Some? ==>
              forall k: nat :: FirstEntry(reply.value, instance, k) ==>
                var v := reply.value[k];
                && a.Worker? && a.workerId == v.workerId
                && after[key].instances ==
                   functions[key].instances[instance := InstanceStatus(instance, v.running, now, v.workerId)]
  {
    if reply.Some? {
      FindInstanceIs(reply.value, instance);
    }
  }

  // ---- Whole runs ----

  /** Parse: a metadata message is read, first or again. Lookup: a worker id is asked for. */
  datatype Step = Parse(m: Metadata) | Lookup(key: string, instance: int, now: int, reply: Option<seq<FuncInstance>>)

  function Apply(functions: Functions, step: Step): Functions {
    match step
    case Parse(m) => Parsed(functions, m)
    case Lookup(key, instance, now, reply) => AfterLookup(functions, key, instance, now, reply).0
  }

  function Run(steps: seq<Step>): Functions {
    if steps == [] then map[] else Apply(Run(steps[..|steps| - 1]), steps[|steps| - 1])
  }

  /** The first message with that key. */
  function FirstWith(steps: seq<Step>, key: string): Option<Metadata> {
    if steps == [] then None
    else
      var before := FirstWith(steps[..|steps| - 1], key);
      match steps[|steps| - 1]
      case Parse(m) => if before.None? && KeyOf(m) == key then Some(m) else before
      case Lookup(_, _, _, _) => before
  }

  /** Over any replays and lookups, a key is there exactly when some message had it, and holds the
      first such message's record. */
  lemma {:induction false} FirstRecordStays(steps: seq<Step>, key: string)
    ensures var functions := Run(steps);
            match FirstWith(steps, key)
            case None => key !in functions
            case Some(m) => key in functions && functions[key].details == m
  {
    if steps != [] {
      FirstRecordStays(steps[..|steps| - 1], key);
    }
  }

  predicate SameFunction(a: Metadata, b: Metadata) {
    a.tenant == b.tenant && a.namespace == b.namespace && a.name == b.name
  }

  lemma RunLast(steps: seq<Step>, last: Step)
    ensures Run(steps + [last]) == Apply(Run(steps), last)
  {
    assert (steps + [last])[..|steps|] == steps;
  }

  /** A worker found is remembered: for three minutes any further lookup of the instance answers it. */
  lemma WorkerRemembered(steps: seq<Step>, key: string, instance: int, now: int, reply: Option<seq<FuncInstance>>,
                         later: int, other: Option<seq<FuncInstance>>)
    requires key in Run(steps) && !AskedLately(Run(steps), key, instance, now)
    requires AfterLookup(Run(steps), key, instance, now, reply).1.Worker? && later - now < 180_000_000_000
    ensures var a := AfterLookup(Run(steps + [Lookup(key, instance, now, reply)]), key, instance, later, other).1;
            a.Worker? && a.workerId == AfterLookup(Run(steps), key, instance, now, reply).1.workerId
  {
    RunLast(steps, Lookup(key, instance, now, reply));
  }

  /** A function is served its own record exactly when the first message with its key was about it. */
  lemma OwnRecordIff(steps: seq<Step>, m: Metadata)
    requires KeyOf(m) in Run(steps)
    ensures SameFunction(Run(steps)[KeyOf(m)].details, m) <==>
            FirstWith(steps, KeyOf(m)).Some? && SameFunction(FirstWith(steps, KeyOf(m)).value, m)
  {
    FirstRecordStays(steps, KeyOf(m));
  }

  /** No two messages share a key and name different functions. */
  ghost predicate KeysApart(steps: seq<Step>) {
    forall i, j :: 0 <= i < |steps| && 0 <= j < |steps| && steps[i].Parse? && steps[j].Parse? ==>
                     KeyOf(steps[i].m) == KeyOf(steps[j].m) ==> SameFunction(steps[i].m, steps[j].m)
  }

  ghost predicate OwnRecords(steps: seq<Step>) {
    forall i :: 0 <= i < |steps| && steps[i].Parse? ==>
                  var m := steps[i].m;
                  KeyOf(m) in Run(steps) && SameFunction(Run(steps)[KeyOf(m)].details, m)
  }

  lemma {:induction false} FirstWithIn(steps: seq<Step>, i: nat) returns (k: nat)
    requires i < |steps| && steps[i].Parse?
    ensures k <= i && steps[k].Parse? && FirstWith(steps, KeyOf(steps[i].m)) == Some(steps[k].m)
    ensures KeyOf(steps[k].m) == KeyOf(steps[i].m)
    decreases |steps|
  {
    var front, key := steps[..|steps| - 1], KeyOf(steps[i].m);
    if i < |front| {
      k := FirstWithIn(front, i);
    } else if j :| 0 <= j < |front| && front[j].Parse? && KeyOf(front[j].m) == key {
      k := FirstWithIn(front, j);
    } else {
      k := i;
      FirstWithNone(front, key);
    }
  }

  lemma {:induction false} FirstWithNone(steps: seq<Step>, key: string)
    requires forall j :: 0 <= j < |steps| && steps[j].Parse? ==> KeyOf(steps[j].m) != key
    ensures FirstWith(steps, key) == None
  {
    if steps != [] {
      FirstWithNone(steps[..|steps| - 1], key);
    }
  }

  /** Over every run, every function read is served its own record exactly when no two functions of the
      run share a key. */
  lemma OwnRecordsIff(steps: seq<Step>)
    ensures OwnRecords(steps) <==> KeysApart(steps)
  {
    forall i | 0 <= i < |steps| && steps[i].Parse?
      ensures KeyOf(steps[i].m) in Run(steps)
      ensures KeysApart(steps) ==> SameFunction(Run(steps)[KeyOf(steps[i].m)].details, steps[i].m)
    {
      var k := FirstWithIn(steps, i);
      FirstRecordStays(steps, KeyOf(steps[i].m));
    }
  }

  /** The key runs tenant, namespace and name together: the second of these functions is served the
      record of the first. */
  lemma SharedKey(component: string, parallelism: int)
    ensures var first := Metadata("a", "bc", "f", component, parallelism);
            var second := Metadata("ab", "c", "f", component, parallelism);
            var functions := Run([Parse(first), Parse(second)]);
            !SameFunction(first, second) && KeyOf(second) in functions && functions[KeyOf(second)].details == first
  {
    var first := Metadata("a", "bc", "f", component, parallelism);
    var second := Metadata("ab", "c", "f", component, parallelism);
    assert KeyOf(first) == "abcf" == KeyOf(second);
    var steps := [Parse(first), Parse(second)];
    var once := steps[..1];
    assert once == [Parse(first)] && once[..0] == [];
    assert Run(once[..0]) == map[] && FirstWith(once[..0], "abcf") == None;
    assert FirstWith(once, "abcf") == Some(first);
    FirstRecordStays(steps, "abcf");
  }

  lemma {:induction false} InstancesStay(steps: seq<Step>, more: seq<Step>, key: string)
    requires key in Run(steps)
    ensures key in Run(steps + more)
    ensures Run(steps)[key].instances.Keys <= Run(steps + more)[key].instances.Keys
    ensures Run(steps)[key].details == Run(steps + more)[key].details
    decreases |more|
  {
    if more == [] {
      assert steps + more == steps;
    } else {
      var front := more[..|more| - 1];
      InstancesStay(steps, front, key);
      var all := steps + more;
      assert all[..|all| - 1] == steps + front;
    }
  }

  function Parses(log: seq<Metadata>): seq<Step> {
    if log == [] then [] else Parses(log[..|log| - 1]) + [Parse(log[|log| - 1])]
  }

  /** A full replay of messages already read changes nothing, worker entries included. */
  lemma {:induction false} ReplayChangesNothing(steps: seq<Step>, log: seq<Metadata>)
    requires forall m :: m in log ==> FirstWith(steps, KeyOf(m)).Some?
    ensures Run(steps + Parses(log)) == Run(steps)
    decreases |log|
  {
    if log == [] {
      assert steps + Parses(log) == steps;
    } else {
      var front, last := log[..|log| - 1], log[|log| - 1];
      ReplayChangesNothing(steps, front);
      var all := steps + Parses(log);
      assert all[..|all| - 1] == steps + Parses(front) && all[|all| - 1] == Parse(last);
      FirstRecordStays(steps, KeyOf(last));
    }
  }

  // ---- Where worker ids come from ----

  /** A status query reported this worker for this instance at this time. */
  datatype Observation = Observation(key: string, instance: int, workerId: string, running: bool, time: int)

  /** All that the replies to the queries made have reported. */
  function Observed(steps: seq<Step>): set<Observation> {
    if steps == [] then {}
    else
      var front := steps[..|steps| - 1];
      Observed(front) +
      match steps[|steps| - 1]
      case Parse(_) => {}
      case Lookup(key, instance, now, reply) =>
        if key !in Run(front) || Recent(Run(front), key, instance, now) || reply.None? then {}
        else set v | v in reply.value :: Observation(key, v.instanceId, v.workerId, v.running, now)
  }

  /** Every worker entry stands for an observation made at its query time. */
  lemma {:induction false} EntryObserved(steps: seq<Step>, key: string, instance: int)
    requires key in Run(steps) && instance in Run(steps)[key].instances
    ensures var status := Run(steps)[key].instances[instance];
            && status.id == instance
            && Observation(key, instance, status.workerId, status.running, status.lastQueryTime) in Observed(steps)
  {
    if steps != [] {
      var front, last := steps[..|steps| - 1], steps[|steps| - 1];
      if last.Lookup? && last.reply.Some? {
        FindInstanceFrom(last.reply.value, last.instance);
      }
      if key in Run(front) && instance in Run(front)[key].instances {
        EntryObserved(front, key, instance);
      }
    }
  }

  lemma {:induction false} FindInstanceFrom(reply: seq<FuncInstance>, instance: int)
    ensures var found := FindInstance(reply, instance);
            found.Some? ==> found.value in reply && found.value.instanceId == instance
  {
    if reply != [] && reply[0].instanceId != instance {
      FindInstanceFrom(reply[1..], instance);
    }
  }

  /** A worker id is returned only if a status query found it less than three minutes before, or in
      the same call. */
  lemma WorkerIdsAreRecent(steps: seq<Step>, key: string, instance: int, now: int, reply: Option<seq<FuncInstance>>)
    requires AfterLookup(Run(steps), key, instance, now, reply).1.Worker?
    ensures var a := AfterLookup(Run(steps), key, instance, now, reply).1;
            exists o :: o in Observed(steps + [Lookup(key, instance, now, reply)]) &&
              o.key == key && o.instance == instance && o.workerId == a.workerId && now - o.time < 180_000_000_000
  {
    var all := steps + [Lookup(key, instance, now, reply)];
    assert all[..|all| - 1] == steps;
    var functions := Run(steps);
    if Recent(functions, key, instance, now) {
      EntryObserved(steps, key, instance);
      var status := functions[key].instances[instance];
      assert Observation(key, instance, status.workerId, status.running, status.lastQueryTime) in Observed(all);
    } else {
      FindInstanceFrom(reply.value, instance);
      var v := FindInstance(reply.value, instance).value;
      assert Observation(key, instance, v.workerId, v.running, now) in Observed(all);
    }
  }
}
