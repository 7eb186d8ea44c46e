/** The tenant database (src/policy/pulsardb.go): a topic is the table, every handler folds it into
    a map of its own, and local updates write the topic first and the map second. */
module TenantDb {
  import opened Text
  import opened TenantPlan

  type Tenants = map<string, Plan>

  /** How a send ends. Unacknowledged: the sender sees an error, yet the topic kept the message. */
  datatype Sending = Delivered | Refused | Unacknowledged

  datatype Db = Db(log: seq<Plan>, tenants: Tenants)

  // ---- What each operation does to the topic and to the handler's map ----

  function Received(tenants: Tenants, t: Plan): Tenants {
    if t.tenantStatus != DELETED then tenants[t.name := t] else tenants - {t.name}
  }

  function Lookup(tenants: Tenants, name: string): Result<Plan> {
    if name in tenants then Success(tenants[name]) else Failure(NotFound)
  }

  function AfterUpdateDb(db: Db, plan: Plan, now: int, sending: Sending): (Db, Result<Plan>) {
    var p := plan.(updatedAt := now);
    match sending
    case Delivered => (Db(db.log + [p], db.tenants[p.name := p]), Success(p))
    case Unacknowledged => (Db(db.log + [p], db.tenants), Failure(SendFailed))
    case Refused => (db, Failure(SendFailed))
  }

  function AfterUpdate(db: Db, name: string, req: Plan, now: int, sending: Sending): (Db, Result<Plan>) {
    var existing := if name in db.tenants then db.tenants[name] else EMPTY_PLAN;
    match Reconciled(req.(name := name), existing, now)
    case Failure(e) => (db, Failure(e))
    case Success(p) => AfterUpdateDb(db, p, now, sending)
  }

  function AfterDelete(db: Db, name: string, now: int, sending: Sending): (Db, Result<Plan>) {
    if name !in db.tenants then (db, Failure(NotFound))
    else
      var t := db.tenants[name].(tenantStatus := DELETED);
      var (db', res) := AfterUpdateDb(db, t, now, sending);
      match res
      case Failure(e) => (db', Failure(e))
      case Success(_) => (db'.(tenants := db'.tenants - {name}), Success(t))
  }

  function AfterGetOrCreate(tenants: Tenants, name: string, now: int): (Tenants, Plan) {
    if name in tenants then (tenants, tenants[name])
    else (tenants[name := NewFreeTenantPlan(name, now)], NewFreeTenantPlan(name, now))
  }

  // ---- What the operations promise ----

  /** A lookup that creates answers what the map then holds: the old plan where there was one, and else
      an activated free plan, with the map unchanged for every other name. */
  lemma GetOrCreateAnswers(tenants: Tenants, name: string, now: int)
    ensures var (after, t) := AfterGetOrCreate(tenants, name, now);
            && after.Keys == tenants.Keys + {name} && after[name] == t
            && (forall n :: n in tenants ==> after[n] == tenants[n])
            && (name !in tenants ==>
                  t == Plan(name, 1, "", "", "free", now,
                            PlanPolicy("free", 5, 1, 48, 172_800_000_000_000, 3, 5, 1, "all-disabled", "", ""),
                            "automatically created free plan"))
  {
  }

  /** An update is filed under its name in topic and map when the send is acknowledged, in the topic
      alone when only the acknowledgement is lost, and nowhere when the send or the plan is refused. */
  lemma UpdateOutcome(db: Db, name: string, req: Plan, now: int, sending: Sending)
    ensures var (after, res) := AfterUpdate(db, name, req, now, sending);
            && (res.Success? <==> ValidPlanType(req.planType) && sending.Delivered?)
            && (res.Success? ==>
                  && res.value.name == name && res.value.updatedAt == now
                  && after == Db(db.log + [res.value], db.tenants[name := res.value]))
            && (res.Failure? ==>
                  && after.tenants == db.tenants
                  && (res.error == InvalidPlanType <==> !ValidPlanType(req.planType))
                  && (res.error == SendFailed <==> ValidPlanType(req.planType)))
            && (sending.Refused? || !ValidPlanType(req.planType) ==> after.log == db.log)
            && (sending.Unacknowledged? && ValidPlanType(req.planType) ==>
                  after.log == AfterUpdate(db, name, req, now, Delivered).0.log)
  {
  }

  /** A deletion appends the cached plan with status 4 (deleted) and a new time, and takes the name, and
      no other, out of the map once that is acknowledged. */
  lemma DeleteOutcome(db: Db, name: string, now: int, sending: Sending)
    requires WellNamed(db.tenants)
    ensures var (after, res) := AfterDelete(db, name, now, sending);
            && (res.Success? <==> name in db.tenants && sending.Delivered?)
            && (res == Failure(NotFound) <==> name !in db.tenants)
            && (res == Failure(SendFailed) <==> name in db.tenants && !sending.Delivered?)
            && (res.Success? ==> res.value == db.tenants[name].(tenantStatus := 4))
            && after.log == (if name in db.tenants && !sending.Refused?
                             then db.log + [db.tenants[name].(tenantStatus := 4, updatedAt := now)] else db.log)
            && after.tenants == if res.Success? then db.tenants - {name} else db.tenants
  {
  }

  // ---- The handler ----

  class Topic {
    var log: seq<Plan>

    constructor ()
      ensures log == []
    {
      log := [];
    }

    method Send(p: Plan, sending: Sending) returns (ok: bool)
      modifies this
      ensures ok <==> sending.Delivered?
      ensures log == if sending.Refused? then old(log) else old(log) + [p]
    {
      if !sending.Refused? {
        log := log + [p];
      }
      ok := sending.Delivered?;
    }
  }

  class TenantPolicyHandler {
    const topic: Topic
    var tenants: Tenants
    var cursor: nat

    constructor (topic: Topic)
      ensures this.topic == topic && tenants == map[] && cursor == 0
    {
      this.topic := topic;
      tenants := map[];
      cursor := 0;
    }

    ghost function State(): Db
      reads this, topic
    {
      Db(topic.log, tenants)
    }

    /** One pass of the listener's loop. */
    method Receive()
      requires cursor < |topic.log|
      modifies this
      ensures cursor == old(cursor) + 1 && tenants == Received(old(tenants), topic.log[old(cursor)])
    {
      var t := topic.log[cursor];
      if t.tenantStatus != DELETED {
        tenants := tenants[t.name := t];
      } else {
        tenants := tenants - {t.name};
      }
      cursor := cursor + 1;
    }

    /** The watchdog starts a new reader at the earliest message; the map is not cleared. */
    method Restart()
      modifies this
      ensures cursor == 0 && tenants == old(tenants)
    {
      cursor := 0;
    }

    method GetTenant(name: string) returns (r: Result<Plan>)
      ensures r == Lookup(tenants, name)
    {
      if name in tenants {
        return Success(tenants[name]);
      }
      return Failure(NotFound);
    }

    method UpdateDb(plan: Plan, now: int, sending: Sending) returns (r: Result<Plan>)
      modifies this`tenants, topic
      ensures (State(), r) == AfterUpdateDb(old(State()), plan, now, sending)
    {
      var p := plan.(updatedAt := now);
      var ok := topic.Send(p, sending);
      if !ok {
        return Failure(SendFailed);
      }
      tenants := tenants[p.name := p];
      return Success(p);
    }

    method UpdateTenant(name: string, req: Plan, now: int, sending: Sending) returns (r: Result<Plan>)
      modifies this`tenants, topic
      ensures (State(), r) == AfterUpdate(old(State()), name, req, now, sending)
    {
      var found := GetTenant(name);
      var existing := if found.Success? then found.value else EMPTY_PLAN;
      var newPlan := ReconcileTenantPlan(req.(name := name), existing, now);
      if newPlan.Failure? {
        return Failure(newPlan.error);
      }
      r := UpdateDb(newPlan.value, now, sending);
    }

    method GetOrCreateTenant(name: string, now: int) returns (t: Plan)
      modifies this`tenants
      ensures (tenants, t) == AfterGetOrCreate(old(tenants), name, now)
    {
      var found := GetTenant(name);
      if found.Success? {
        return found.value;
      }
      t := NewFreeTenantPlan(name, now);
      tenants := tenants[name := t];
    }

    method DeleteTenant(name: string, now: int, sending: Sending) returns (r: Result<Plan>)
      modifies this`tenants, topic
      ensures (State(), r) == AfterDelete(old(State()), name, now, sending)
    {
      if name !in tenants {
        return Failure(NotFound);
      }
      var t := tenants[name].(tenantStatus := DELETED);
      var sent := UpdateDb(t, now, sending);
      if sent.Failure? {
        return Failure(sent.error);
      }
      tenants := tenants - {name};
      return Success(t);
    }
  }

  // ---- What the topic says about a name ----

  function LastEntry(log: seq<Plan>, name: string): Option<Plan> {
    if log == [] then None
    else if log[|log| - 1].name == name then Some(log[|log| - 1])
    else LastEntry(log[..|log| - 1], name)
  }

  /** It was not deleted last: status 4 stands for that. */
  predicate Live(log: seq<Plan>, name: string) {
    var last := LastEntry(log, name);
    last.Some? && last.value.tenantStatus != 4
  }

  predicate IsFree(name: string, p: Plan) {
    p == NewFreeTenantPlan(name, p.updatedAt)
  }

  /** The map holds the last entry of a live name, and nothing but an automatic free plan for a
      name deleted last or never logged. */
  ghost predicate Agrees(log: seq<Plan>, tenants: Tenants, name: string) {
    if Live(log, name) then name in tenants && tenants[name] == LastEntry(log, name).value
    else name in tenants ==> IsFree(name, tenants[name])
  }

  /** An entry for the name is still ahead of the listener. */
  ghost predicate Ahead(log: seq<Plan>, cursor: nat, name: string) {
    exists i :: cursor <= i < |log| && log[i].name == name
  }

  /** Plans stand under their own name. */
  ghost predicate WellNamed(tenants: Tenants) {
    forall n :: n in tenants ==> tenants[n].name == n
  }

  ghost predicate OnCourse(log: seq<Plan>, cursor: nat, tenants: Tenants) {
    && cursor <= |log|
    && WellNamed(tenants)
    && (forall n :: !Ahead(log, cursor, n) ==> Agrees(log, tenants, n))
  }

  lemma LastEntryAppend(log: seq<Plan>, p: Plan, name: string)
    ensures LastEntry(log + [p], name) == if p.name == name then Some(p) else LastEntry(log, name)
  {
  }

  /** An entry that is received with no later one of its name is the last of its name. */
  lemma {:induction false} LastEntryAt(log: seq<Plan>, i: nat)
    requires i < |log| && !Ahead(log, i + 1, log[i].name)
    ensures LastEntry(log, log[i].name) == Some(log[i])
    decreases |log|
  {
    if i < |log| - 1 {
      var front := log[..|log| - 1];
      assert log[|log| - 1].name != log[i].name;
      LastEntryAt(front, i);
    }
  }

  lemma ReceiveStaysOnCourse(log: seq<Plan>, cursor: nat, tenants: Tenants)
    requires OnCourse(log, cursor, tenants) && cursor < |log|
    ensures OnCourse(log, cursor + 1, Received(tenants, log[cursor]))
  {
    var t := log[cursor];
    var after := Received(tenants, t);
    forall n | !Ahead(log, cursor + 1, n)
      ensures Agrees(log, after, n)
    {
      if n == t.name {
        LastEntryAt(log, cursor);
      } else {
        assert !Ahead(log, cursor, n);
      }
    }
  }

  /** Appending an entry leaves every map on course, whatever the appender does to its own map
      under that name. */
  lemma AppendStaysOnCourse(log: seq<Plan>, cursor: nat, tenants: Tenants, after: Tenants, p: Plan)
    requires OnCourse(log, cursor, tenants)
    requires forall n :: n != p.name ==> (n in after <==> n in tenants) && (n in tenants ==> after[n] == tenants[n])
    requires p.name in after ==> after[p.name].name == p.name
    ensures OnCourse(log + [p], cursor, after)
  {
    forall n | !Ahead(log + [p], cursor, n)
      ensures Agrees(log + [p], after, n)
    {
      assert (log + [p])[|log|] == p;
      assert n != p.name;
      LastEntryAppend(log, p, n);
      assert !Ahead(log, cursor, n) by {
        forall i | cursor <= i < |log|
          ensures log[i].name != n
        {
          assert (log + [p])[i] == log[i];
        }
      }
    }
  }

  lemma RestartStaysOnCourse(log: seq<Plan>, cursor: nat, tenants: Tenants)
    requires OnCourse(log, cursor, tenants)
    ensures OnCourse(log, 0, tenants)
  {
  }

  // ---- On course means ending up right ----

  /** The map once the listener has read the rest of the topic. */
  function Listened(log: seq<Plan>, cursor: nat, tenants: Tenants): Tenants
    decreases |log| - cursor
  {
    if cursor < |log| then Listened(log, cursor + 1, Received(tenants, log[cursor])) else tenants
  }

  /** With no further update the listener gets every name right. */
  ghost predicate EndsRight(log: seq<Plan>, cursor: nat, tenants: Tenants) {
    forall n :: Agrees(log, Listened(log, cursor, tenants), n)
  }

  lemma {:induction false} OnCourseEndsRight(log: seq<Plan>, cursor: nat, tenants: Tenants)
    requires OnCourse(log, cursor, tenants)
    ensures EndsRight(log, cursor, tenants)
    decreases |log| - cursor
  {
    if cursor < |log| {
      ReceiveStaysOnCourse(log, cursor, tenants);
      OnCourseEndsRight(log, cursor + 1, Received(tenants, log[cursor]));
    } else {
      forall n
        ensures Agrees(log, tenants, n)
      {
        assert !Ahead(log, cursor, n);
      }
    }
  }

  /** Names with no entry ahead are left alone. */
  lemma {:induction false} ListenedLeaves(log: seq<Plan>, cursor: nat, tenants: Tenants, name: string)
    requires cursor <= |log| && !Ahead(log, cursor, name)
    ensures var after := Listened(log, cursor, tenants);
            (name in after <==> name in tenants) && (name in tenants ==> after[name] == tenants[name])
    decreases |log| - cursor
  {
    if cursor < |log| {
      assert log[cursor].name != name;
      assert !Ahead(log, cursor + 1, name);
      ListenedLeaves(log, cursor + 1, Received(tenants, log[cursor]), name);
    }
  }

  /** A handler is on course exactly when listening to the end of the topic gets every name right. */
  lemma OnCourseIffEndsRight(log: seq<Plan>, cursor: nat, tenants: Tenants)
    requires cursor <= |log| && WellNamed(tenants)
    ensures OnCourse(log, cursor, tenants) <==> EndsRight(log, cursor, tenants)
  {
    if OnCourse(log, cursor, tenants) {
      OnCourseEndsRight(log, cursor, tenants);
    }
    if EndsRight(log, cursor, tenants) {
      forall n | !Ahead(log, cursor, n)
        ensures Agrees(log, tenants, n)
      {
        assert Agrees(log, Listened(log, cursor, tenants), n);
        ListenedLeaves(log, cursor, tenants, n);
      }
    }
  }

  // ---- Replicas over one topic ----

  datatype Replica = Replica(cursor: nat, tenants: Tenants)
  datatype World = World(log: seq<Plan>, replicas: seq<Replica>)

  datatype Step =
    | Receive
    | Restart
    | Update(name: string, req: Plan, now: int, sending: Sending)
    | Delete(name: string, now: int, sending: Sending)
    | GetOrCreate(name: string, now: int)

  ghost predicate WorldOnCourse(w: World) {
    forall r :: 0 <= r < |w.replicas| ==> OnCourse(w.log, w.replicas[r].cursor, w.replicas[r].tenants)
  }

  function StepReplica(log: seq<Plan>, me: Replica, step: Step): (seq<Plan>, Replica) {
    match step
    case Receive =>
      if me.cursor < |log|
      then (log, me.(cursor := me.cursor + 1, tenants := Received(me.tenants, log[me.cursor])))
      else (log, me)
    case Restart => (log, me.(cursor := 0))
    case Update(name, req, now, sending) =>
      var (db, _) := AfterUpdate(Db(log, me.tenants), name, req, now, sending);
      (db.log, me.(tenants := db.tenants))
    case Delete(name, now, sending) =>
      var (db, _) := AfterDelete(Db(log, me.tenants), name, now, sending);
      (db.log, me.(tenants := db.tenants))
    case GetOrCreate(name, now) =>
      (log, me.(tenants := AfterGetOrCreate(me.tenants, name, now).0))
  }

  function Apply(w: World, r: nat, step: Step): World {
    if r < |w.replicas| then
      var (log, me) := StepReplica(w.log, w.replicas[r], step);
      World(log, w.replicas[r := me])
    else w
  }

  function Run(w: World, steps: seq<(nat, Step)>): World
    decreases |steps|
  {
    if steps == [] then w else Run(Apply(w, steps[0].0, steps[0].1), steps[1..])
  }

  function Fresh(n: nat): World {
    World([], seq(n, i => Replica(0, map[])))
  }

  /** What a step appends, if anything; the step touches its own map under that name only. */
  lemma StepAppends(log: seq<Plan>, me: Replica, step: Step)
    requires OnCourse(log, me.cursor, me.tenants)
    ensures var (log', me') := StepReplica(log, me, step);
            && (log' == log || exists p :: log' == log + [p])
            && OnCourse(log', me'.cursor, me'.tenants)
  {
    match step
    case Receive =>
      if me.cursor < |log| {
        ReceiveStaysOnCourse(log, me.cursor, me.tenants);
      }
    case Restart => RestartStaysOnCourse(log, me.cursor, me.tenants);
    case Update(name, req, now, sending) => UpdateStaysOnCourse(log, me, name, req, now, sending);
    case Delete(name, now, sending) => DeleteStaysOnCourse(log, me, name, now, sending);
    case GetOrCreate(name, now) =>
      var after := AfterGetOrCreate(me.tenants, name, now).0;
      forall n | !Ahead(log, me.cursor, n)
        ensures Agrees(log, after, n)
      {
        assert Agrees(log, me.tenants, n);
      }
  }

  lemma UpdateStaysOnCourse(log: seq<Plan>, me: Replica, name: string, req: Plan, now: int, sending: Sending)
    requires OnCourse(log, me.cursor, me.tenants)
    ensures var (db, _) := AfterUpdate(Db(log, me.tenants), name, req, now, sending);
            && (db.log == log || exists p :: db.log == log + [p])
            && OnCourse(db.log, me.cursor, db.tenants)
  {
    var (db, _) := AfterUpdate(Db(log, me.tenants), name, req, now, sending);
    if db.log != log {
      AppendStaysOnCourse(log, me.cursor, me.tenants, db.tenants, db.log[|log|]);
    }
  }

  lemma DeleteStaysOnCourse(log: seq<Plan>, me: Replica, name: string, now: int, sending: Sending)
    requires OnCourse(log, me.cursor, me.tenants)
    ensures var (db, _) := AfterDelete(Db(log, me.tenants), name, now, sending);
            && (db.log == log || exists p :: db.log == log + [p])
            && OnCourse(db.log, me.cursor, db.tenants)
  {
    var (db, _) := AfterDelete(Db(log, me.tenants), name, now, sending);
    if db.log != log {
      AppendStaysOnCourse(log, me.cursor, me.tenants, db.tenants, db.log[|log|]);
    }
  }

  lemma ApplyStaysOnCourse(w: World, r: nat, step: Step)
    requires WorldOnCourse(w)
    ensures WorldOnCourse(Apply(w, r, step))
  {
    if r < |w.replicas| {
      var me := w.replicas[r];
      StepAppends(w.log, me, step);
      var w' := Apply(w, r, step);
      forall q | 0 <= q < |w'.replicas|
        ensures OnCourse(w'.log, w'.replicas[q].cursor, w'.replicas[q].tenants)
      {
        if q != r && w'.log != w.log {
          var other := w.replicas[q];
          var p :| w'.log == w.log + [p];
          assert OnCourse(w.log, other.cursor, other.tenants);
          AppendStaysOnCourse(w.log, other.cursor, other.tenants, other.tenants, p);
        }
      }
    }
  }

  lemma {:induction false} RunStaysOnCourse(w: World, steps: seq<(nat, Step)>)
    requires WorldOnCourse(w)
    ensures WorldOnCourse(Run(w, steps))
    decreases |steps|
  {
    if steps != [] {
      ApplyStaysOnCourse(w, steps[0].0, steps[0].1);
      RunStaysOnCourse(Apply(w, steps[0].0, steps[0].1), steps[1..]);
    }
  }

  /** Convergence: over every run of any number of replicas, one whose listener has reached the end
      of the topic maps each logged name to its last entry, or has dropped it. */
  lemma ReplicasConverge(n: nat, steps: seq<(nat, Step)>, r: nat, name: string)
    requires r < n
    ensures var w := Run(Fresh(n), steps);
            r < |w.replicas| && (w.replicas[r].cursor == |w.log| ==> Agrees(w.log, w.replicas[r].tenants, name))
  {
    var w := Run(Fresh(n), steps);
    RunStaysOnCourse(Fresh(n), steps);
    RunReplicas(Fresh(n), steps);
    assert OnCourse(w.log, w.replicas[r].cursor, w.replicas[r].tenants);
    if w.replicas[r].cursor == |w.log| {
      assert !Ahead(w.log, |w.log|, name);
    }
  }

  lemma {:induction false} RunReplicas(w: World, steps: seq<(nat, Step)>)
    ensures |Run(w, steps).replicas| == |w.replicas|
    decreases |steps|
  {
    if steps != [] {
      RunReplicas(Apply(w, steps[0].0, steps[0].1), steps[1..]);
    }
  }

  /** `n` messages received by replica `r`. */
  function Listening(r: nat, n: nat): seq<(nat, Step)> {
    if n == 0 then [] else [(r, Receive)] + Listening(r, n - 1)
  }

  /** A replica that goes on receiving reaches the end of the topic, and has then read all of it. */
  lemma {:induction false} ListeningCatchesUp(w: World, r: nat)
    requires r < |w.replicas| && w.replicas[r].cursor <= |w.log|
    ensures var me := w.replicas[r];
            var after := Run(w, Listening(r, |w.log| - me.cursor));
            && after.log == w.log && r < |after.replicas|
            && after.replicas[r] == Replica(|w.log|, Listened(w.log, me.cursor, me.tenants))
    decreases |w.log| - w.replicas[r].cursor
  {
    var me := w.replicas[r];
    if me.cursor < |w.log| {
      var next := Apply(w, r, Receive);
      var steps := Listening(r, |w.log| - me.cursor);
      assert steps[1..] == Listening(r, |w.log| - me.cursor - 1);
      assert next.replicas[r] == Replica(me.cursor + 1, Received(me.tenants, w.log[me.cursor]));
      ListeningCatchesUp(next, r);
    }
  }

  /** There it stays, until the topic grows, or it is restarted or used. */
  lemma ListeningRests(w: World, r: nat)
    requires r < |w.replicas| && w.replicas[r].cursor >= |w.log|
    ensures Apply(w, r, Receive) == w
  {
    assert w.replicas[r := w.replicas[r]] == w.replicas;
  }

  /** A restarted one reads the whole topic again, over the map it has. */
  lemma RestartRereads(w: World, r: nat)
    requires r < |w.replicas|
    ensures var after := Run(w, [(r, Restart)] + Listening(r, |w.log|));
            && r < |after.replicas| && after.log == w.log
            && after.replicas[r] == Replica(|w.log|, Listened(w.log, 0, w.replicas[r].tenants))
  {
    var next := Apply(w, r, Restart);
    assert ([(r, Restart)] + Listening(r, |w.log|))[1..] == Listening(r, |w.log|);
    ListeningCatchesUp(next, r);
  }

  /** A replica sees its own operations at once: the plan it updated, the name it deleted gone, the name
      it looked up there. */
  lemma OwnStepsShow(log: seq<Plan>, me: Replica, name: string, req: Plan, now: int)
    requires ValidPlanType(req.planType) && WellNamed(me.tenants)
    ensures var (l, r) := StepReplica(log, me, Update(name, req, now, Delivered));
            r.cursor == me.cursor && HoldsLast(l, r.tenants, name) && r.tenants[name].updatedAt == now
    ensures var (l, r) := StepReplica(log, me, Delete(name, now, Delivered));
            && r.cursor == me.cursor && name !in r.tenants
            && (name in me.tenants ==> LastEntry(l, name) == Some(me.tenants[name].(tenantStatus := 4, updatedAt := now)))
    ensures var (l, r) := StepReplica(log, me, GetOrCreate(name, now));
            r.cursor == me.cursor && l == log && name in r.tenants && (name in me.tenants ==> r.tenants == me.tenants)
  {
    UpdaterHoldsLast(Db(log, me.tenants), name, req, now);
    UpdateOutcome(Db(log, me.tenants), name, req, now, Delivered);
    DeleteOutcome(Db(log, me.tenants), name, now, Delivered);
    if name in me.tenants {
      LastEntryAppend(log, me.tenants[name].(tenantStatus := 4, updatedAt := now), name);
    }
  }

  // ---- Calls cut between the send and the map write ----

  datatype Write = Put(plan: Plan) | Drop(name: string)

  /** One handler with calls in flight: `calls` holds the map writes each has still to make. */
  datatype Racer = Racer(log: seq<Plan>, cursor: nat, tenants: Tenants, calls: map<nat, seq<Write>>)

  /** Sent: a local send was acknowledged. Foreign: any other message reached the topic. Missed:
      GetOrCreateTenant found no entry. Commit: a call makes its next map write. */
  datatype RaceStep =
    | Listen
    | Rewind
    | Sent(id: nat, plan: Plan, deletes: bool)
    | Foreign(plan: Plan)
    | Missed(id: nat, name: string, now: int)
    | Commit(id: nat)

  function Target(w: Write): string {
    match w
    case Put(p) => p.name
    case Drop(name) => name
  }

  function Written(tenants: Tenants, w: Write): Tenants {
    match w
    case Put(p) => tenants[p.name := p]
    case Drop(name) => tenants - {name}
  }

  function Race(s: Racer, step: RaceStep): Racer {
    match step
    case Listen =>
      if s.cursor < |s.log|
      then s.(cursor := s.cursor + 1, tenants := Received(s.tenants, s.log[s.cursor]))
      else s
    case Rewind => s.(cursor := 0)
    case Sent(id, p, deletes) =>
      s.(log := s.log + [p], calls := s.calls[id := if deletes then [Put(p), Drop(p.name)] else [Put(p)]])
    case Foreign(p) => s.(log := s.log + [p])
    case Missed(id, name, now) =>
      if name in s.tenants then s else s.(calls := s.calls[id := [Put(NewFreeTenantPlan(name, now))]])
    case Commit(id) =>
      if id in s.calls && s.calls[id] != []
      then s.(tenants := Written(s.tenants, s.calls[id][0]), calls := s.calls[id := s.calls[id][1..]])
      else s
  }

  /** The listener is still to pass an entry of that name, or the write says what the last one says. */
  ghost predicate Timely(log: seq<Plan>, cursor: nat, w: Write) {
    || Ahead(log, cursor, Target(w))
    || (w.Drop? && !Live(log, w.name))
    || (w.Put? && Live(log, w.plan.name) && LastEntry(log, w.plan.name) == Some(w.plan))
    || (w.Put? && !Live(log, w.plan.name) && IsFree(w.plan.name, w.plan))
  }

  lemma CommitOnCourseIff(log: seq<Plan>, cursor: nat, tenants: Tenants, w: Write)
    requires OnCourse(log, cursor, tenants)
    ensures OnCourse(log, cursor, Written(tenants, w)) <==> Timely(log, cursor, w)
  {
  }

  /** A late map write lets the listener still get every name right exactly when it is timely. */
  lemma LateWriteHarmlessIff(log: seq<Plan>, cursor: nat, tenants: Tenants, w: Write)
    requires cursor <= |log| && WellNamed(tenants) && EndsRight(log, cursor, tenants)
    ensures EndsRight(log, cursor, Written(tenants, w)) <==> Timely(log, cursor, w)
  {
    OnCourseIffEndsRight(log, cursor, tenants);
    OnCourseIffEndsRight(log, cursor, Written(tenants, w));
    CommitOnCourseIff(log, cursor, tenants, w);
  }

  ghost predicate CommitsTimely(s: Racer, steps: seq<RaceStep>)
    decreases |steps|
  {
    steps != [] ==>
      && (steps[0].Commit? && steps[0].id in s.calls && s.calls[steps[0].id] != [] ==>
            Timely(s.log, s.cursor, s.calls[steps[0].id][0]))
      && CommitsTimely(Race(s, steps[0]), steps[1..])
  }

  function RaceRun(s: Racer, steps: seq<RaceStep>): Racer
    decreases |steps|
  {
    if steps == [] then s else RaceRun(Race(s, steps[0]), steps[1..])
  }

  lemma RaceStaysOnCourse(s: Racer, step: RaceStep)
    requires OnCourse(s.log, s.cursor, s.tenants)
    requires step.Commit? && step.id in s.calls && s.calls[step.id] != [] ==>
               Timely(s.log, s.cursor, s.calls[step.id][0])
    ensures var t := Race(s, step); OnCourse(t.log, t.cursor, t.tenants)
  {
    match step
    case Listen =>
      if s.cursor < |s.log| {
        ReceiveStaysOnCourse(s.log, s.cursor, s.tenants);
      }
    case Rewind => RestartStaysOnCourse(s.log, s.cursor, s.tenants);
    case Sent(_, p, _) => AppendStaysOnCourse(s.log, s.cursor, s.tenants, s.tenants, p);
    case Foreign(p) => AppendStaysOnCourse(s.log, s.cursor, s.tenants, s.tenants, p);
    case Missed(_, _, _) =>
    case Commit(id) =>
      if id in s.calls && s.calls[id] != [] {
        CommitOnCourseIff(s.log, s.cursor, s.tenants, s.calls[id][0]);
      }
  }

  /** Convergence at the grain of single map writes: in any interleaving whose late writes are
      timely, a listener at the end of the topic has every name right. */
  lemma {:induction false} RacesConverge(s: Racer, steps: seq<RaceStep>, name: string)
    requires OnCourse(s.log, s.cursor, s.tenants) && CommitsTimely(s, steps)
    ensures var t := RaceRun(s, steps);
            OnCourse(t.log, t.cursor, t.tenants) && (t.cursor == |t.log| ==> Agrees(t.log, t.tenants, name))
    decreases |steps|
  {
    if steps != [] {
      RaceStaysOnCourse(s, steps[0]);
      RacesConverge(Race(s, steps[0]), steps[1..], name);
    } else {
      assert s.cursor == |s.log| ==> !Ahead(s.log, s.cursor, name);
    }
  }

  /** At the start and after every step, listening to the end of the topic gets every name right. */
  ghost predicate AlwaysRight(s: Racer, steps: seq<RaceStep>)
    decreases |steps|
  {
    && EndsRight(s.log, s.cursor, s.tenants)
    && (steps != [] ==> AlwaysRight(Race(s, steps[0]), steps[1..]))
  }

  lemma RaceStepIff(s: Racer, step: RaceStep)
    requires OnCourse(s.log, s.cursor, s.tenants)
    ensures var t := Race(s, step);
            && t.cursor <= |t.log| && WellNamed(t.tenants)
            && (EndsRight(t.log, t.cursor, t.tenants) <==>
                step.Commit? && step.id in s.calls && s.calls[step.id] != [] ==>
                  Timely(s.log, s.cursor, s.calls[step.id][0]))
  {
    var t := Race(s, step);
    if step.Commit? && step.id in s.calls && s.calls[step.id] != [] {
      OnCourseEndsRight(s.log, s.cursor, s.tenants);
      LateWriteHarmlessIff(s.log, s.cursor, s.tenants, s.calls[step.id][0]);
    } else {
      RaceStaysOnCourse(s, step);
      OnCourseEndsRight(t.log, t.cursor, t.tenants);
    }
  }

  /** Over whole interleavings: the handler would end up right from every point of the run exactly
      when every late write of the run is timely. */
  lemma {:induction false} AlwaysRightIff(s: Racer, steps: seq<RaceStep>)
    requires OnCourse(s.log, s.cursor, s.tenants)
    ensures AlwaysRight(s, steps) <==> CommitsTimely(s, steps)
    decreases |steps|
  {
    OnCourseEndsRight(s.log, s.cursor, s.tenants);
    if steps != [] {
      var t := Race(s, steps[0]);
      RaceStepIff(s, steps[0]);
      if EndsRight(t.log, t.cursor, t.tenants) {
        OnCourseIffEndsRight(t.log, t.cursor, t.tenants);
        AlwaysRightIff(t, steps[1..]);
      }
    }
  }

  /** Nothing happens at the end of the topic, to a lookup that finds its name, or for a call that has made
      all its writes. */
  lemma RaceRests(s: Racer, step: RaceStep)
    requires match step
             case Listen => s.cursor >= |s.log|
             case Missed(_, name, _) => name in s.tenants
             case Commit(id) => id !in s.calls || s.calls[id] == []
             case _ => false
    ensures Race(s, step) == s
  {
  }

  /** A call that is not interrupted has the effect of the whole operation. */
  lemma PromptUpdateIsAtomic(s: Racer, id: nat, plan: Plan, now: int)
    ensures var t := RaceRun(s, [Sent(id, plan.(updatedAt := now), false), Commit(id)]);
            Db(t.log, t.tenants) == AfterUpdateDb(Db(s.log, s.tenants), plan, now, Delivered).0
  {
    var steps := [Sent(id, plan.(updatedAt := now), false), Commit(id)];
    RunOne(s, steps);
    RunOne(Race(s, steps[0]), steps[1..]);
  }

  lemma PromptDeleteIsAtomic(s: Racer, id: nat, name: string, now: int)
    requires name in s.tenants && s.tenants[name].name == name
    ensures var p := s.tenants[name].(tenantStatus := DELETED, updatedAt := now);
            var t := RaceRun(s, [Sent(id, p, true), Commit(id), Commit(id)]);
            Db(t.log, t.tenants) == AfterDelete(Db(s.log, s.tenants), name, now, Delivered).0
  {
    var p := s.tenants[name].(tenantStatus := DELETED, updatedAt := now);
    var steps := [Sent(id, p, true), Commit(id), Commit(id)];
    RunOne(s, steps);
    var s1 := Race(s, steps[0]);
    RunOne(s1, steps[1..]);
    RunOne(Race(s1, Commit(id)), steps[2..]);
  }

  /** A call that is not interrupted writes in time: the entry it has just sent is ahead. */
  lemma PromptUpdateIsTimely(s: Racer, id: nat, p: Plan, deletes: bool)
    requires OnCourse(s.log, s.cursor, s.tenants)
    ensures CommitsTimely(s, [Sent(id, p, deletes), Commit(id), Commit(id)])
  {
    var t := Race(s, Sent(id, p, deletes));
    assert t.log[|s.log|] == p;
    assert Ahead(t.log, s.cursor, p.name);
    var steps := [Sent(id, p, deletes), Commit(id), Commit(id)];
    assert steps[1..] == [Commit(id), Commit(id)] && steps[1..][1..] == [Commit(id)];
    assert CommitsTimely(Race(t, Commit(id)), [Commit(id)]);
  }

  lemma PromptFreePlanIsTimely(s: Racer, id: nat, name: string, now: int)
    requires OnCourse(s.log, s.cursor, s.tenants) && name !in s.tenants
    ensures CommitsTimely(s, [Missed(id, name, now), Commit(id)])
  {
  }

  // ---- A restart mends what late writes broke ----

  /** The write's plan is one the topic has a name for, or an automatic free plan. */
  ghost predicate Known(log: seq<Plan>, w: Write) {
    w.Put? ==> Ahead(log, 0, w.plan.name) || IsFree(w.plan.name, w.plan)
  }

  /** The map, and every write still to come, holds logged names and free plans only. */
  ghost predicate Grounded(s: Racer) {
    && s.cursor <= |s.log|
    && (forall n :: n in s.tenants ==> s.tenants[n].name == n && (Ahead(s.log, 0, n) || IsFree(n, s.tenants[n])))
    && (forall id, k :: id in s.calls && 0 <= k < |s.calls[id]| ==> Known(s.log, s.calls[id][k]))
  }

  lemma AheadStays(log: seq<Plan>, p: Plan)
    ensures forall n :: Ahead(log, 0, n) ==> Ahead(log + [p], 0, n)
    ensures Ahead(log + [p], 0, p.name)
  {
    forall n | Ahead(log, 0, n)
      ensures Ahead(log + [p], 0, n)
    {
      var i :| 0 <= i < |log| && log[i].name == n;
      assert (log + [p])[i].name == n;
    }
    assert (log + [p])[|log|] == p;
  }

  lemma RaceStaysGrounded(s: Racer, step: RaceStep)
    requires Grounded(s)
    ensures Grounded(Race(s, step))
  {
    match step
    case Sent(_, p, _) => AheadStays(s.log, p);
    case Foreign(p) => AheadStays(s.log, p);
    case Listen =>
      if s.cursor < |s.log| {
        assert Ahead(s.log, 0, s.log[s.cursor].name);
      }
    case Commit(id) =>
      if id in s.calls && s.calls[id] != [] {
        assert Known(s.log, s.calls[id][0]);
      }
    case Rewind =>
    case Missed(_, _, _) =>
  }

  lemma {:induction false} RunStaysGrounded(s: Racer, steps: seq<RaceStep>)
    requires Grounded(s)
    ensures Grounded(RaceRun(s, steps))
    decreases |steps|
  {
    if steps != [] {
      RaceStaysGrounded(s, steps[0]);
      RunStaysGrounded(Race(s, steps[0]), steps[1..]);
    }
  }

  lemma {:induction false} NeverLogged(log: seq<Plan>, name: string)
    requires !Ahead(log, 0, name)
    ensures LastEntry(log, name) == None
  {
    if log != [] {
      assert log[|log| - 1].name != name;
      var front := log[..|log| - 1];
      forall i | 0 <= i < |front|
        ensures front[i].name != name
      {
        assert front[i] == log[i];
      }
      NeverLogged(front, name);
    }
  }

  /** Whatever interleaving went before, timely or not, a restart puts the handler back on course:
      once it has read to the end of the topic again, every name is right. */
  lemma RestartMends(steps: seq<RaceStep>, more: seq<RaceStep>, name: string)
    requires CommitsTimely(Race(RaceRun(Racer([], 0, map[], map[]), steps), Rewind), more)
    ensures var t := RaceRun(Race(RaceRun(Racer([], 0, map[], map[]), steps), Rewind), more);
            t.cursor == |t.log| ==> Agrees(t.log, t.tenants, name)
  {
    var s := Racer([], 0, map[], map[]);
    RunStaysGrounded(s, steps);
    var back := Race(RaceRun(s, steps), Rewind);
    forall n | !Ahead(back.log, 0, n)
      ensures Agrees(back.log, back.tenants, n)
    {
      NeverLogged(back.log, n);
    }
    RacesConverge(back, more, name);
  }

  // ---- Late writes that diverge ----

  /** Two writers of one name: the map keeps the older plan although the listener has read it all. */
  lemma StaleUpdateDiverges(p1: Plan, p2: Plan)
    requires p1.name == p2.name && p1 != p2 && p1.tenantStatus == p2.tenantStatus == ACTIVATED
    ensures var t := RaceRun(Racer([], 0, map[], map[]), [Sent(0, p1, false), Foreign(p2), Listen, Listen, Commit(0)]);
            t.cursor == |t.log| && LastEntry(t.log, p1.name) == Some(p2) && t.tenants == map[p1.name := p1]
  {
    var s0 := Racer([], 0, map[], map[]);
    var s1 := Race(s0, Sent(0, p1, false));
    var s2 := Race(s1, Foreign(p2));
    var s3 := Race(s2, Listen);
    var s4 := Race(s3, Listen);
    var s5 := Race(s4, Commit(0));
    assert s2.log == [p1, p2];
    assert s3.tenants == map[p1.name := p1] && s4.tenants == map[p1.name := p2] && s5.tenants == map[p1.name := p1];
    var steps := [Sent(0, p1, false), Foreign(p2), Listen, Listen, Commit(0)];
    RunOne(s0, steps);
    RunOne(s1, steps[1..]);
    RunOne(s2, steps[2..]);
    RunOne(s3, steps[3..]);
    RunOne(s4, steps[4..]);
  }

  /** A lookup that missed just before the plan arrived: the free plan hides the logged one. */
  lemma StaleFreePlanDiverges(p: Plan, now: int)
    requires p.tenantStatus == ACTIVATED && !IsFree(p.name, p)
    ensures var t := RaceRun(Racer([], 0, map[], map[]), [Missed(0, p.name, now), Foreign(p), Listen, Commit(0)]);
            t.cursor == |t.log| && LastEntry(t.log, p.name) == Some(p) &&
            t.tenants == map[p.name := NewFreeTenantPlan(p.name, now)]
  {
    var s0 := Racer([], 0, map[], map[]);
    var s1 := Race(s0, Missed(0, p.name, now));
    var s2 := Race(s1, Foreign(p));
    var s3 := Race(s2, Listen);
    var s4 := Race(s3, Commit(0));
    assert s2.log == [p];
    assert s3.tenants == map[p.name := p] && s4.tenants == map[p.name := NewFreeTenantPlan(p.name, now)];
    var steps := [Missed(0, p.name, now), Foreign(p), Listen, Commit(0)];
    RunOne(s0, steps);
    RunOne(s1, steps[1..]);
    RunOne(s2, steps[2..]);
    RunOne(s3, steps[3..]);
  }

  lemma RunOne(s: Racer, steps: seq<RaceStep>)
    requires steps != []
    ensures RaceRun(s, steps) == RaceRun(Race(s, steps[0]), steps[1..])
  {
  }

  // ---- Patches over the topic ----

  function Cached(tenants: Tenants, name: string): Plan {
    if name in tenants then tenants[name] else EMPTY_PLAN
  }

  lemma UpdateAnswers(db: Db, name: string, req: Plan, now: int)
    ensures AfterUpdate(db, name, req, now, Delivered).1 == Reconciled(req.(name := name), Cached(db.tenants, name), now)
  {
  }

  /** Whatever the updates of a name ask for, they come out as if made to `plan`. */
  ghost predicate UpdatesAsFrom(db: Db, name: string, plan: Plan, now: int) {
    forall req :: AfterUpdate(db, name, req, now, Delivered).1 == Reconciled(req.(name := name), plan, now)
  }

  lemma ProbedBase(db: Db, name: string, plan: Plan, now: int)
    requires UpdatesAsFrom(db, name, plan, now)
    ensures SameBase(Cached(db.tenants, name), plan)
  {
    var req := Probe(name);
    UpdateAnswers(db, name, req, now);
    assert AfterUpdate(db, name, req, now, Delivered).1 == Reconciled(req.(name := name), plan, now);
    ProbeTells(name, Cached(db.tenants, name), plan, now);
  }

  /** Exactly when the cached plan is the equal of `plan` in every field an update may keep. */
  lemma UpdatesAsFromIff(db: Db, name: string, plan: Plan, now: int)
    ensures UpdatesAsFrom(db, name, plan, now) <==> SameBase(Cached(db.tenants, name), plan)
  {
    if UpdatesAsFrom(db, name, plan, now) {
      ProbedBase(db, name, plan, now);
    } else {
      var req :| AfterUpdate(db, name, req, now, Delivered).1 != Reconciled(req.(name := name), plan, now);
      UpdateAnswers(db, name, req, now);
      if SameBase(Cached(db.tenants, name), plan) {
        SameBaseSuffices(req.(name := name), Cached(db.tenants, name), plan, now);
      }
    }
  }

  /** An update drops nothing of the topic's last entry, whatever it asks for, exactly when the map holds
      a plan for the name that equals that entry in every field an update may keep. */
  lemma UpdateDropsNothingIff(log: seq<Plan>, tenants: Tenants, name: string, now: int)
    requires LastEntry(log, name).Some? && LastEntry(log, name).value != EMPTY_PLAN
    ensures UpdatesAsFrom(Db(log, tenants), name, LastEntry(log, name).value, now) <==>
            name in tenants && tenants[name] != EMPTY_PLAN && SameMerged(tenants[name], LastEntry(log, name).value)
  {
    UpdatesAsFromIff(Db(log, tenants), name, LastEntry(log, name).value, now);
  }

  /** The map of a listener that has read the topic to its end, with no automatic plan in it. */
  function Standing(log: seq<Plan>, name: string): Plan {
    if Live(log, name) then LastEntry(log, name).value else EMPTY_PLAN
  }

  /** Deleted and unknown names included: updates come out as on a replica that has read everything
      exactly when the cached plan is as good as what the topic says. */
  lemma UpdatesUpToDateIff(log: seq<Plan>, tenants: Tenants, name: string, now: int)
    ensures UpdatesAsFrom(Db(log, tenants), name, Standing(log, name), now) <==>
            SameBase(Cached(tenants, name), Standing(log, name))
  {
    UpdatesAsFromIff(Db(log, tenants), name, Standing(log, name), now);
  }

  /** The map holds the topic's last entry of the name. */
  predicate HoldsLast(log: seq<Plan>, tenants: Tenants, name: string) {
    name in tenants && LastEntry(log, name) == Some(tenants[name])
  }

  /** It does so when the listener has passed that entry, and after every update of its own, whatever
      the listener has read. */
  lemma PassedHoldsLast(log: seq<Plan>, cursor: nat, tenants: Tenants, name: string)
    requires OnCourse(log, cursor, tenants) && !Ahead(log, cursor, name) && Live(log, name)
    ensures HoldsLast(log, tenants, name)
  {
    assert Agrees(log, tenants, name);
  }

  lemma UpdaterHoldsLast(db: Db, name: string, req: Plan, now: int)
    ensures var (after, res) := AfterUpdate(db, name, req, now, Delivered);
            res.Success? ==> HoldsLast(after.log, after.tenants, name)
  {
    var existing := Cached(db.tenants, name);
    if Reconciled(req.(name := name), existing, now).Success? {
      AcceptedUpdate(req.(name := name), existing, now);
      LastEntryAppend(db.log, Reconciled(req.(name := name), existing, now).value, name);
    }
  }

  /** Then an update appends the patch laid over that entry, audit trail and all. */
  lemma UpdatePatchesLastEntry(log: seq<Plan>, tenants: Tenants, name: string, req: Plan, now: int)
    requires HoldsLast(log, tenants, name) && ValidPlanType(req.planType)
    ensures var last := LastEntry(log, name).value;
            var p := Reconciled(req.(name := name), last, now).value;
            var (db, res) := AfterUpdate(Db(log, tenants), name, req, now, Delivered);
            && db.log == log + [p] && res == Success(p) && LastEntry(db.log, name) == Some(p)
            && last.audit <= p.audit
  {
    var last := LastEntry(log, name).value;
    AcceptedUpdate(req.(name := name), last, now);
    LastEntryAppend(log, Reconciled(req.(name := name), last, now).value, name);
  }

  /** Updates of one name through a handler, one after the other. */
  function UpdateRun(db: Db, name: string, rs: seq<Plan>, times: seq<int>): Db
    requires |rs| == |times|
    decreases |rs|
  {
    if rs == [] then db
    else UpdateRun(AfterUpdate(db, name, rs[0], times[0], Delivered).0, name, rs[1..], times[1..])
  }

  /** The same patches, each naming its tenant. */
  function Named(rs: seq<Plan>, name: string): seq<Plan> {
    seq(|rs|, i requires 0 <= i < |rs| => rs[i].(name := name))
  }

  lemma {:induction false} UpdateRunApplies(db: Db, name: string, rs: seq<Plan>, times: seq<int>)
    requires |rs| == |times| && HoldsLast(db.log, db.tenants, name)
    requires forall k :: 0 <= k < |rs| ==> ValidPlanType(rs[k].planType)
    ensures var after := UpdateRun(db, name, rs, times);
            && ApplyAll(Named(rs, name), db.tenants[name], times).Success?
            && LastEntry(after.log, name) == Some(ApplyAll(Named(rs, name), db.tenants[name], times).value)
    decreases |rs|
  {
    if rs != [] {
      var next := AfterUpdate(db, name, rs[0], times[0], Delivered).0;
      UpdaterHoldsLast(db, name, rs[0], times[0]);
      AcceptedUpdate(rs[0].(name := name), db.tenants[name], times[0]);
      assert Named(rs, name)[1..] == Named(rs[1..], name);
      UpdateRunApplies(next, name, rs[1..], times[1..]);
    }
  }

  /** The patch algebra on the topic: any updates of a name through a handler that holds its last entry
      leave, as the new last entry, the old one with all patches laid over it. */
  lemma UpdateRunPatches(log: seq<Plan>, tenants: Tenants, name: string, rs: seq<Plan>, times: seq<int>)
    requires HoldsLast(log, tenants, name) && tenants[name] != EMPTY_PLAN
    requires |rs| == |times| && rs != []
    requires forall k :: 0 <= k < |rs| ==> ValidPlanType(rs[k].planType)
    ensures var last := LastEntry(log, name).value;
            var patched := Reconciled(OverlayAll(Named(rs, name)), last, times[|times| - 1]);
            && patched.Success?
            && LastEntry(UpdateRun(Db(log, tenants), name, rs, times).log, name) == Some(patched.value)
  {
    UpdateRunApplies(Db(log, tenants), name, rs, times);
    PatchChain(Named(rs, name), LastEntry(log, name).value, times);
  }

  /** In particular when no entry of the name is ahead of the handler's listener. */
  lemma CaughtUpRunPatches(log: seq<Plan>, me: Replica, name: string, rs: seq<Plan>, times: seq<int>)
    requires OnCourse(log, me.cursor, me.tenants) && !Ahead(log, me.cursor, name) && Live(log, name)
    requires |rs| == |times| && rs != [] && LastEntry(log, name).value != EMPTY_PLAN
    requires forall k :: 0 <= k < |rs| ==> ValidPlanType(rs[k].planType)
    ensures var patched := Reconciled(OverlayAll(Named(rs, name)), LastEntry(log, name).value, times[|times| - 1]);
            && patched.Success?
            && LastEntry(UpdateRun(Db(log, me.tenants), name, rs, times).log, name) == Some(patched.value)
  {
    PassedHoldsLast(log, me.cursor, me.tenants, name);
    UpdateRunPatches(log, me.tenants, name, rs, times);
  }

  /** A replica that has not read the first update yet starts a new plan: the first patch is lost to
      every later reader, with its audit trail. */
  lemma LaggingUpdateLosesPatch(name: string, first: Plan, second: Plan, t1: int, t2: int)
    requires ValidPlanType(first.planType) && ValidPlanType(second.planType)
    ensures var w := Run(Fresh(2), [(0, Update(name, first, t1, Delivered)), (1, Update(name, second, t2, Delivered))]);
            && w.log == [NewPlan(first.(name := name, updatedAt := t1)), NewPlan(second.(name := name, updatedAt := t2))]
            && LastEntry(w.log, name) == Some(NewPlan(second.(name := name, updatedAt := t2)))
  {
    var steps := [(0, Update(name, first, t1, Delivered)), (1, Update(name, second, t2, Delivered))];
    var w0 := Fresh(2);
    var w1 := Apply(w0, 0, steps[0].1);
    var w2 := Apply(w1, 1, steps[1].1);
    assert w1.log == [NewPlan(first.(name := name, updatedAt := t1))];
    assert w1.replicas[1] == Replica(0, map[]);
    assert w2.log == w1.log + [NewPlan(second.(name := name, updatedAt := t2))];
    assert Run(w0, steps) == Run(w1, steps[1..]) == Run(w2, steps[1..][1..]) == w2;
  }
}
