/** The request limiter (src/route/semaphore.go, src/route/middleware.go): a semaphore whose slot is
    released by every request that comes back, admitted or not, and by none whose handler panics. */
module RateLimiter {

  /** A slot taken, unless all are; and a slot given back, if any is taken. */
  function AfterAcquire(tokens: nat, size: nat): (nat, bool) {
    if tokens < size then (tokens + 1, true) else (tokens, false)
  }

  function AfterRelease(tokens: nat): nat {
    if tokens > 0 then tokens - 1 else 0
  }

  /** The channel holds one element for each slot taken. */
  class Sema {
    const size: nat
    var ch: seq<int>

    ghost predicate Valid()
      reads this
    {
      |ch| <= size
    }

    constructor (length: nat)
      ensures Valid() && size == length && ch == []
    {
      size := length;
      ch := [];
    }

    method Acquire() returns (ok: bool)
      requires Valid()
      modifies this
      ensures Valid() && (|ch|, ok) == AfterAcquire(|old(ch)|, size)
      ensures ch == if ok then old(ch) + [1] else old(ch)
    {
      ok := |ch| < size;
      if ok {
        ch := ch + [1];
      }
    }

    method Release() returns (ok: bool)
      requires Valid()
      modifies this
      ensures Valid() && |ch| == AfterRelease(|old(ch)|) && ok == (old(ch) != [])
      ensures ch == if ok then old(ch)[1..] else []
    {
      ok := ch != [];
      if ok {
        ch := ch[1..];
      }
    }
  }

  /** One request from start to end with nothing in between: an admitted one gives its slot back, if
      its handler returns; a panicking handler skips the release and keeps the slot; a refused request
      takes a slot away from the requests being served. */
  method LimitRate(rate: Sema, panics: bool) returns (served: bool)
    requires rate.Valid()
    modifies rate
    ensures rate.Valid() && served == (|old(rate.ch)| < rate.size)
    ensures |rate.ch| == if !served then AfterRelease(|old(rate.ch)|)
                         else if panics then |old(rate.ch)| + 1
                         else |old(rate.ch)|
  {
    served := rate.Acquire();
    if served && panics {
      return;
    }
    var _ := rate.Release();
  }

  // ---- Concurrent requests ----

  /** `serving` and `refused` hold the requests that have acquired or failed to, and are not over yet.
      The rest counts the past: refusals, handlers that panicked, and releases that found no slot
      taken. */
  datatype Limiter = Limiter(size: nat, tokens: nat, serving: set<nat>, refused: set<nat>,
                             rejections: nat, aborts: nat, idle: nat)

  datatype Step = Arrive(id: nat) | Release(id: nat) | Abort(id: nat)

  function GiveBack(l: Limiter): Limiter {
    l.(tokens := AfterRelease(l.tokens), idle := if l.tokens > 0 then l.idle else l.idle + 1)
  }

  /** Release: the handler has returned, or the refusal has been written. Abort: the handler panicked. */
  function Apply(l: Limiter, step: Step): Limiter {
    match step
    case Arrive(id) =>
      if id in l.serving || id in l.refused then l
      else
        var (tokens, ok) := AfterAcquire(l.tokens, l.size);
        if ok then l.(tokens := tokens, serving := l.serving + {id})
        else l.(tokens := tokens, refused := l.refused + {id}, rejections := l.rejections + 1)
    case Release(id) =>
      if id in l.serving then GiveBack(l).(serving := l.serving - {id})
      else if id in l.refused then GiveBack(l).(refused := l.refused - {id})
      else l
    case Abort(id) =>
      if id in l.serving then l.(serving := l.serving - {id}, aborts := l.aborts + 1) else l
  }

  function Run(l: Limiter, steps: seq<Step>): Limiter
    decreases |steps|
  {
    if steps == [] then l else Run(Apply(l, steps[0]), steps[1..])
  }

  function NewLimiter(size: nat): Limiter {
    Limiter(size, 0, {}, {}, 0, 0, 0)
  }

  function InFlight(l: Limiter): nat {
    |l.serving| + |l.refused|
  }

  /** Slots are conserved: those taken, and those given back by refused requests, are the ones of
      requests being served, of panicked handlers, and of releases that found none taken. */
  ghost predicate Conserved(l: Limiter) {
    && l.serving !! l.refused
    && l.tokens <= l.size && |l.refused| <= l.rejections
    && l.tokens + (l.rejections - |l.refused|) == |l.serving| + l.aborts + l.idle
    && (l.rejections == 0 ==> l.idle == 0)
    && l.tokens <= |l.serving| + l.aborts
  }

  lemma ArriveConserves(l: Limiter, id: nat)
    requires Conserved(l)
    ensures Conserved(Apply(l, Arrive(id))) && Apply(l, Arrive(id)).size == l.size
  {
  }

  lemma ReleaseConserves(l: Limiter, id: nat)
    requires Conserved(l)
    ensures Conserved(Apply(l, Release(id))) && Apply(l, Release(id)).size == l.size
  {
  }

  lemma AbortConserves(l: Limiter, id: nat)
    requires Conserved(l)
    ensures Conserved(Apply(l, Abort(id))) && Apply(l, Abort(id)).size == l.size
  {
  }

  lemma {:induction false} RunConserves(l: Limiter, steps: seq<Step>)
    requires Conserved(l)
    ensures Conserved(Run(l, steps)) && Run(l, steps).size == l.size
    decreases |steps|
  {
    if steps != [] {
      match steps[0] {
        case Arrive(id) => ArriveConserves(l, id);
        case Release(id) => ReleaseConserves(l, id);
        case Abort(id) => AbortConserves(l, id);
      }
      RunConserves(Apply(l, steps[0]), steps[1..]);
    }
  }

  /** In every interleaving: at most the size plus the refusals so far are in flight, and at most the
      requests served plus the panics so far hold slots; until the first refusal exactly those do. */
  lemma LimiterBounds(size: nat, steps: seq<Step>)
    ensures var l := Run(NewLimiter(size), steps);
            && l.tokens <= size && l.tokens <= |l.serving| + l.aborts
            && InFlight(l) <= l.tokens + l.rejections <= size + l.rejections
            && (l.rejections == 0 ==> l.tokens == InFlight(l) + l.aborts)
  {
    RunConserves(NewLimiter(size), steps);
  }

  /** With nothing served, all slots are free exactly when refused requests have given back as many as
      panics kept and idle releases missed; until the first refusal, exactly when no handler panicked. */
  lemma AllFreeIff(size: nat, steps: seq<Step>)
    requires Run(NewLimiter(size), steps).serving == {}
    ensures var l := Run(NewLimiter(size), steps);
            && (l.tokens == 0 <==> l.rejections - |l.refused| == l.aborts + l.idle)
            && (l.rejections == 0 ==> (l.tokens == 0 <==> l.aborts == 0))
  {
    RunConserves(NewLimiter(size), steps);
  }

  function Arrivals(n: nat): seq<Step> {
    if n == 0 then [] else Arrivals(n - 1) + [Arrive(n - 1)]
  }

  /** The ids below `n`. */
  function Ids(n: nat): set<nat> {
    if n == 0 then {} else Ids(n - 1) + {n - 1}
  }

  lemma {:induction false} IdsBelow(n: nat)
    ensures forall i :: i in Ids(n) <==> 0 <= i < n
    ensures |Ids(n)| == n
  {
    if n > 0 {
      IdsBelow(n - 1);
    }
  }

  lemma {:induction false} RunAppend(l: Limiter, a: seq<Step>, b: seq<Step>)
    ensures Run(l, a + b) == Run(Run(l, a), b)
    decreases |a|
  {
    if a == [] {
      assert a + b == b;
    } else {
      assert (a + b)[1..] == a[1..] + b;
      RunAppend(Apply(l, a[0]), a[1..], b);
    }
  }

  lemma RunOne(l: Limiter, step: Step)
    ensures Run(l, [step]) == Apply(l, step)
  {
  }

  lemma {:induction false} Filled(size: nat, n: nat)
    requires n <= size
    ensures Run(NewLimiter(size), Arrivals(n)) == Limiter(size, n, Ids(n), {}, 0, 0, 0)
  {
    if n > 0 {
      Filled(size, n - 1);
      IdsBelow(n - 1);
      RunAppend(NewLimiter(size), Arrivals(n - 1), [Arrive(n - 1)]);
      RunOne(Limiter(size, n - 1, Ids(n - 1), {}, 0, 0, 0), Arrive(n - 1));
    }
  }

  /** All slots taken, and `excess` requests served beyond them. */
  function Overloaded(size: nat, excess: nat): Limiter {
    Limiter(size, size, Ids(size + excess), {}, excess, 0, 0)
  }

  /** A refusal at full load opens the door to one more request. */
  lemma RefusalAdmits(size: nat, excess: nat)
    requires size > 0
    ensures var next := size + excess;
            Run(Overloaded(size, excess), [Arrive(next)] + [Release(next)] + [Arrive(next)]) == Overloaded(size, excess + 1)
  {
    var next := size + excess;
    IdsBelow(next);
    var l0 := Overloaded(size, excess);
    var l1 := Apply(l0, Arrive(next));
    assert l1 == l0.(refused := {next}, rejections := excess + 1);
    var l2 := Apply(l1, Release(next));
    assert l2 == l0.(tokens := size - 1, rejections := excess + 1) by {
      assert {next} - {next} == {};
    }
    RunAppend(l0, [Arrive(next)] + [Release(next)], [Arrive(next)]);
    RunAppend(l0, [Arrive(next)], [Release(next)]);
    RunOne(l0, Arrive(next));
    RunOne(l1, Release(next));
    RunOne(l2, Arrive(next));
  }

  /** The bound is reached: for every size and every number of refusals there is a run in which that
      many more requests than the size are served at once. */
  lemma {:induction false} LimitExceeded(size: nat, excess: nat) returns (steps: seq<Step>)
    requires size > 0
    ensures Run(NewLimiter(size), steps) == Overloaded(size, excess)
  {
    if excess == 0 {
      steps := Arrivals(size);
      Filled(size, size);
    } else {
      var before := LimitExceeded(size, excess - 1);
      var next := size + excess - 1;
      var more := [Arrive(next)] + [Release(next)] + [Arrive(next)];
      steps := before + more;
      RunAppend(NewLimiter(size), before, more);
      RefusalAdmits(size, excess - 1);
    }
  }

  lemma OverloadedServes(size: nat, excess: nat)
    ensures var l := Overloaded(size, excess);
            l.rejections == excess && |l.serving| == size + excess
  {
    IdsBelow(size + excess);
  }

  lemma {:induction false} ReleasesFree(size: nat, n: nat)
    requires n <= size
    ensures Run(Limiter(size, n, Ids(n), {}, 0, 0, 0), Releases(n)) == NewLimiter(size)
  {
    if n > 0 {
      IdsBelow(n - 1);
      assert Ids(n) - {n - 1} == Ids(n - 1);
      assert Apply(Limiter(size, n, Ids(n), {}, 0, 0, 0), Release(n - 1)) == Limiter(size, n - 1, Ids(n - 1), {}, 0, 0, 0);
      assert Releases(n)[1..] == Releases(n - 1);
      ReleasesFree(size, n - 1);
    }
  }

  /** As many requests as there are slots are served at once, and leave the limiter as it was when their
      handlers return. */
  lemma ServedAndFree(size: nat, n: nat)
    requires n <= size
    ensures Run(NewLimiter(size), Arrivals(n)).serving == Ids(n) && |Ids(n)| == n
    ensures Run(NewLimiter(size), Arrivals(n) + Releases(n)) == NewLimiter(size)
  {
    Filled(size, n);
    IdsBelow(n);
    RunAppend(NewLimiter(size), Arrivals(n), Releases(n));
    ReleasesFree(size, n);
  }

  // ---- Panics ----

  /** Requests that are admitted, one after the other, and whose handlers panic. */
  function Panics(n: nat): seq<Step> {
    if n == 0 then [] else Panics(n - 1) + ([Arrive(n - 1)] + [Abort(n - 1)])
  }

  /** Nothing served, and the slots of `aborts` panicked handlers taken. */
  function Leaked(size: nat, aborts: nat): Limiter {
    Limiter(size, aborts, {}, {}, 0, aborts, 0)
  }

  lemma {:induction false} PanicsLeak(size: nat, n: nat)
    requires n <= size
    ensures Run(NewLimiter(size), Panics(n)) == Leaked(size, n)
  {
    if n > 0 {
      PanicsLeak(size, n - 1);
      var l := Leaked(size, n - 1);
      RunAppend(NewLimiter(size), Panics(n - 1), [Arrive(n - 1)] + [Abort(n - 1)]);
      RunAppend(l, [Arrive(n - 1)], [Abort(n - 1)]);
      RunOne(l, Arrive(n - 1));
      RunOne(Apply(l, Arrive(n - 1)), Abort(n - 1));
      assert {n - 1} - {n - 1} == {};
    }
  }

  /** As many panics as there are slots close the limiter: nothing is served, every slot is taken, and
      whoever arrives is refused. */
  lemma PanicsClose(size: nat, id: nat)
    ensures var l := Run(NewLimiter(size), Panics(size));
            && l.serving == {} && l.tokens == l.aborts == size
            && Apply(l, Arrive(id)).serving == {} && id in Apply(l, Arrive(id)).refused
  {
    PanicsLeak(size, size);
  }

  function Releases(n: nat): seq<Step> {
    if n == 0 then [] else [Release(n - 1)] + Releases(n - 1)
  }

  function Turned(size: nat, tokens: nat, waiting: nat, refusals: nat): Limiter {
    Limiter(size, tokens, {}, Ids(waiting), refusals, size, 0)
  }

  lemma {:induction false} ArrivalsRefused(size: nat, n: nat)
    ensures Run(Leaked(size, size), Arrivals(n)) == Turned(size, size, n, n)
  {
    if n > 0 {
      ArrivalsRefused(size, n - 1);
      IdsBelow(n - 1);
      RunAppend(Leaked(size, size), Arrivals(n - 1), [Arrive(n - 1)]);
      RunOne(Turned(size, size, n - 1, n - 1), Arrive(n - 1));
    }
  }

  lemma {:induction false} RefusalsGiveBack(size: nat, tokens: nat, n: nat, refusals: nat)
    requires n <= tokens
    ensures Run(Turned(size, tokens, n, refusals), Releases(n)) == Turned(size, tokens - n, 0, refusals)
  {
    if n > 0 {
      IdsBelow(n - 1);
      assert Ids(n) - {n - 1} == Ids(n - 1);
      assert Apply(Turned(size, tokens, n, refusals), Release(n - 1)) == Turned(size, tokens - 1, n - 1, refusals);
      assert Releases(n)[1..] == Releases(n - 1);
      RefusalsGiveBack(size, tokens - 1, n - 1, refusals);
    }
  }

  /** A closed limiter is opened again by refusals alone: each of them frees one slot. */
  lemma RefusalsReopen(size: nat, n: nat)
    requires n <= size
    ensures Run(NewLimiter(size), Panics(size) + (Arrivals(n) + Releases(n))) == Turned(size, size - n, 0, n)
  {
    PanicsLeak(size, size);
    RunAppend(NewLimiter(size), Panics(size), Arrivals(n) + Releases(n));
    RunAppend(Leaked(size, size), Arrivals(n), Releases(n));
    ArrivalsRefused(size, n);
    RefusalsGiveBack(size, size, n, n);
  }
}
