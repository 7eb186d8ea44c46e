/** Collecting statistics from a window of brokers (src/policy/topic-stats.go): one query goroutine
    per broker, one buffered channel, one collector with a timer. */
module BrokerGather {
  import opened Integers
  import opened Text

  datatype Stats = Stats(broker: string, data: Option<string>)

  datatype WindowError = Negative | OffsetBeyondTotal | ZeroLimit
  datatype Window = Selected(brokers: seq<string>, newOffset: nat) | Rejected(error: WindowError) | Panicked

  // ---- The window ----

  /** From the offset on, as many brokers as the limit allows; all of them for neither. An end beyond
      the largest integer is no end of a slice. */
  function WindowOf(brokers: seq<string>, offset: int, limit: int): Window {
    if offset < 0 || limit < 0 then Rejected(Negative)
    else if offset >= |brokers| then Rejected(OffsetBeyondTotal)
    else if limit == 0 && offset > 0 then Rejected(ZeroLimit)
    else if offset + limit >= TWO_63 then Panicked
    else
      var end := if limit == 0 then |brokers| else Min(offset + limit, |brokers|);
      Selected(brokers[offset..end], end)
  }

  method SelectWindow(brokers: seq<string>, offset: I64, limit: I64) returns (w: Window)
    requires |brokers| < TWO_63
    ensures w == WindowOf(brokers, offset, limit)
    ensures w.Selected? ==> w.brokers != []
  {
    if offset < 0 || limit < 0 {
      return Rejected(Negative);
    }
    var total := |brokers|;
    if offset >= total {
      return Rejected(OffsetBeyondTotal);
    }
    var newOffset := Int64(offset + limit);
    if newOffset == 0 || newOffset > total {
      newOffset := total;
    } else if limit == 0 {
      return Rejected(ZeroLimit);
    }
    if newOffset < offset {
      return Panicked;
    }
    return Selected(brokers[offset..newOffset], newOffset);
  }

  /** Every answer to an offset and a limit: the errors, the overflow, and else the brokers from the offset
      on, as many as the limit, or all that are left; without offset and limit that is every broker. */
  lemma WindowMeans(brokers: seq<string>, offset: I64, limit: I64)
    requires |brokers| < TWO_63
    ensures var w := WindowOf(brokers, offset, limit);
            && (w == Rejected(Negative) <==> offset < 0 || limit < 0)
            && (w == Rejected(OffsetBeyondTotal) <==> offset >= 0 && limit >= 0 && offset >= |brokers|)
            && (w == Rejected(ZeroLimit) <==> 0 < offset < |brokers| && limit == 0)
            && (w == Panicked <==> 0 <= offset < |brokers| && limit > 0 && offset + limit > 0x7fff_ffff_ffff_ffff)
            && (w.Selected? ==>
                  && w.newOffset == offset + |w.brokers| <= |brokers|
                  && (forall k :: 0 <= k < |w.brokers| ==> w.brokers[k] == brokers[offset + k])
                  && (limit > 0 ==> |w.brokers| <= limit && (|w.brokers| == limit || w.newOffset == |brokers|))
                  && (limit == 0 ==> offset == 0 && w.brokers == brokers))
    ensures brokers != [] ==> WindowOf(brokers, 0, 0) == Selected(brokers, |brokers|)
  {
    assert brokers[0..|brokers|] == brokers;
  }

  function Follow(brokers: seq<string>, offset: nat, limit: nat): seq<seq<string>>
    requires limit > 0
    decreases |brokers| - offset
  {
    match WindowOf(brokers, offset, limit)
    case Selected(window, next) => [window] + Follow(brokers, next, limit)
    case _ => []
  }

  function Flatten(windows: seq<seq<string>>): seq<string> {
    if windows == [] then [] else windows[0] + Flatten(windows[1..])
  }

  /** Following the offsets over a fixed broker list visits every broker once, in order, by
      nonempty windows no longer than the limit. */
  lemma {:induction false} WindowsTile(brokers: seq<string>, offset: nat, limit: nat)
    requires limit > 0 && offset <= |brokers| <= MAX_LENGTH
    requires limit < if offset == 0 then TWO_63 else MAX_LENGTH
    ensures Flatten(Follow(brokers, offset, limit)) == brokers[offset..]
    ensures forall w :: w in Follow(brokers, offset, limit) ==> 0 < |w| <= limit
    decreases |brokers| - offset
  {
    match WindowOf(brokers, offset, limit)
    case Selected(window, next) =>
      if limit < MAX_LENGTH {
        WindowsTile(brokers, next, limit);
      }
      assert brokers[offset..] == window + brokers[next..];
      assert Follow(brokers, offset, limit)[1..] == Follow(brokers, next, limit);
    case _ =>
  }

  // ---- The goroutines ----

  datatype Phase = Collecting | Succeeded | TimedOut

  /** `answers` holds what each broker's query has sent; `channel` has room for |window| results. */
  datatype Gather = Gather(
    window: seq<string>, answers: seq<Option<Stats>>, channel: seq<Stats>,
    collected: seq<Stats>, size: int, phase: Phase)

  datatype Step = Send(i: nat, data: Option<string>) | Receive | Tick

  predicate Unsent(g: Gather, i: nat) {
    i < |g.window| && i < |g.answers| && g.answers[i].None?
  }

  predicate HasRoom(g: Gather) {
    |g.channel| < |g.window|
  }

  /** A send that finds the channel full waits, and changes nothing. */
  function Apply(g: Gather, step: Step): Gather {
    match step
    case Send(i, data) =>
      if Unsent(g, i) && HasRoom(g) then
        var r := Stats(g.window[i], data);
        g.(answers := g.answers[i := Some(r)], channel := g.channel + [r])
      else g
    case Receive =>
      if g.phase.Collecting? && g.channel != [] then
        g.(channel := g.channel[1..], collected := g.collected + [g.channel[0]], size := g.size - 1,
           phase := if g.size - 1 == 0 then Succeeded else Collecting)
      else g
    case Tick => if g.phase.Collecting? then g.(phase := TimedOut) else g
  }

  function Run(g: Gather, steps: seq<Step>): Gather
    decreases |steps|
  {
    if steps == [] then g else Run(Apply(g, steps[0]), steps[1..])
  }

  function Start(window: seq<string>): Gather {
    Gather(window, seq(|window|, i => None), [], [], |window|, Collecting)
  }

  function Sent(answers: seq<Option<Stats>>): multiset<Stats> {
    if answers == [] then multiset{}
    else Sent(answers[..|answers| - 1]) +
         match answers[|answers| - 1] case Some(r) => multiset{r} case None => multiset{}
  }

  ghost predicate Consistent(g: Gather) {
    && |g.answers| == |g.window|
    && (forall i :: 0 <= i < |g.answers| && g.answers[i].Some? ==> g.answers[i].value.broker == g.window[i])
    && multiset(g.channel) + multiset(g.collected) == Sent(g.answers)
    && g.size == |g.window| - |g.collected|
    && (g.phase.Succeeded? ==> g.size == 0)
    && (g.phase.Collecting? ==> g.size > 0)
  }

  lemma {:induction false} SentUpdate(answers: seq<Option<Stats>>, i: nat, r: Stats)
    requires i < |answers| && answers[i].None?
    ensures Sent(answers[i := Some(r)]) == Sent(answers) + multiset{r}
  {
    var n := |answers| - 1;
    if i < n {
      SentUpdate(answers[..n], i, r);
      assert answers[i := Some(r)][..n] == answers[..n][i := Some(r)];
    } else {
      assert answers[i := Some(r)][..n] == answers[..n];
    }
  }

  /** As many results as answers, short by one for every query still to send. */
  lemma {:induction false} SentSize(answers: seq<Option<Stats>>)
    ensures |Sent(answers)| <= |answers|
    ensures |Sent(answers)| == |answers| <==> forall i :: 0 <= i < |answers| ==> answers[i].Some?
  {
    if answers != [] {
      SentSize(answers[..|answers| - 1]);
    }
  }

  lemma {:induction false} SentNone(answers: seq<Option<Stats>>)
    requires forall i :: 0 <= i < |answers| ==> answers[i].None?
    ensures Sent(answers) == multiset{}
  {
    if answers != [] {
      SentNone(answers[..|answers| - 1]);
    }
  }

  lemma ApplyKeeps(g: Gather, step: Step)
    requires Consistent(g)
    ensures Consistent(Apply(g, step)) && Apply(g, step).window == g.window
  {
    match step
    case Send(i, data) =>
      if Unsent(g, i) && HasRoom(g) {
        SentUpdate(g.answers, i, Stats(g.window[i], data));
      }
    case Receive =>
      if g.channel != [] {
        assert g.channel == [g.channel[0]] + g.channel[1..];
      }
    case Tick =>
  }

  lemma {:induction false} RunKeeps(g: Gather, steps: seq<Step>)
    requires Consistent(g)
    ensures Consistent(Run(g, steps)) && Run(g, steps).window == g.window
    decreases |steps|
  {
    if steps != [] {
      ApplyKeeps(g, steps[0]);
      RunKeeps(Apply(g, steps[0]), steps[1..]);
    }
  }

  function Values(answers: seq<Option<Stats>>): seq<Stats>
    requires forall i :: 0 <= i < |answers| ==> answers[i].Some?
  {
    seq(|answers|, i requires 0 <= i < |answers| => answers[i].value)
  }

  lemma {:induction false} SentAll(answers: seq<Option<Stats>>)
    requires forall i :: 0 <= i < |answers| ==> answers[i].Some?
    ensures Sent(answers) == multiset(Values(answers))
  {
    if answers != [] {
      var n := |answers| - 1;
      SentAll(answers[..n]);
      assert Values(answers) == Values(answers[..n]) + [answers[n].value];
    }
  }

  // ---- What is sent, and when it ends ----

  /** What broker `i`'s query sends: the data of its first send. */
  function FirstSent(steps: seq<Step>, i: nat): Option<Option<string>> {
    if steps == [] then None
    else
      match steps[0]
      case Send(k, data) => if k == i then Some(data) else FirstSent(steps[1..], i)
      case _ => FirstSent(steps[1..], i)
  }

  lemma UnsentHasRoom(g: Gather, i: nat)
    requires Consistent(g) && Unsent(g, i)
    ensures HasRoom(g)
  {
    SentSize(g.answers);
    assert |multiset(g.channel) + multiset(g.collected)| == |g.channel| + |g.collected|;
  }

  lemma {:induction false} AnswersFrom(g: Gather, steps: seq<Step>, i: nat)
    requires Consistent(g) && i < |g.window|
    ensures var r := Run(g, steps);
            && |r.answers| == |g.window|
            && r.answers[i] == if g.answers[i].Some? then g.answers[i]
                               else match FirstSent(steps, i)
                                    case Some(data) => Some(Stats(g.window[i], data))
                                    case None => None
    decreases |steps|
  {
    if steps != [] {
      ApplyKeeps(g, steps[0]);
      if Unsent(g, i) {
        UnsentHasRoom(g, i);
      }
      AnswersFrom(Apply(g, steps[0]), steps[1..], i);
    }
  }

  /** In every interleaving the answer of each broker is what its query sent first, under its name. */
  lemma AnswersAreSent(window: seq<string>, steps: seq<Step>, i: nat)
    requires i < |window|
    ensures var r := Run(Start(window), steps);
            && |r.answers| == |window|
            && (FirstSent(steps, i).None? <==> r.answers[i].None?)
            && (FirstSent(steps, i).Some? ==> r.answers[i] == Some(Stats(window[i], FirstSent(steps, i).value)))
  {
    SentNone(Start(window).answers);
    AnswersFrom(Start(window), steps, i);
  }

  /** A timer that fires while collecting ends it with what has been collected; after the end, in success
      or timeout, nothing more is collected. */
  lemma {:induction false} EndIsFinal(g: Gather, steps: seq<Step>)
    ensures g.phase.Collecting? ==>
              Apply(g, Tick).phase == TimedOut && Apply(g, Tick).collected == g.collected
    ensures !g.phase.Collecting? ==> Run(g, steps).phase == g.phase && Run(g, steps).collected == g.collected
    decreases |steps|
  {
    if steps != [] && !g.phase.Collecting? {
      EndIsFinal(Apply(g, steps[0]), steps[1..]);
    }
  }

  /** It succeeds at the moment the last result is received. */
  lemma LastReceiptSucceeds(g: Gather)
    requires Consistent(g) && g.phase.Collecting? && g.channel != []
    ensures var r := Apply(g, Receive);
            && r.collected == g.collected + [g.channel[0]]
            && (r.phase == Succeeded <==> |r.collected| == |g.window|) && (r.phase == Collecting <==> |r.collected| < |g.window|)
  {
  }

  /** In every interleaving, a query that has not sent yet finds room in the channel, even after the
      collector has gone. */
  lemma NoQueryBlocks(window: seq<string>, steps: seq<Step>, i: nat)
    requires window != [] && Unsent(Run(Start(window), steps), i)
    ensures |Run(Start(window), steps).channel| < |window|
  {
    var g := Run(Start(window), steps);
    SentNone(Start(window).answers);
    RunKeeps(Start(window), steps);
    SentSize(g.answers);
    assert |multiset(g.channel) + multiset(g.collected)| == |g.channel| + |g.collected|;
  }

  /** A success holds exactly the one answer of every broker in the window. */
  lemma SuccessIsComplete(window: seq<string>, steps: seq<Step>)
    requires window != [] && Run(Start(window), steps).phase.Succeeded?
    ensures var g := Run(Start(window), steps);
            && |g.answers| == |window|
            && (forall i :: 0 <= i < |window| ==> g.answers[i].Some? && g.answers[i].value.broker == window[i])
            && multiset(g.collected) == multiset(Values(g.answers))
            && g.channel == []
  {
    var g := Run(Start(window), steps);
    SentNone(Start(window).answers);
    RunKeeps(Start(window), steps);
    SentSize(g.answers);
    assert |multiset(g.channel) + multiset(g.collected)| == |g.channel| + |g.collected|;
    SentAll(g.answers);
  }

  /** A timeout holds a part of the answers sent, none of them twice. */
  lemma TimeoutIsPartial(window: seq<string>, steps: seq<Step>)
    requires window != []
    ensures multiset(Run(Start(window), steps).collected) <= Sent(Run(Start(window), steps).answers)
  {
    SentNone(Start(window).answers);
    RunKeeps(Start(window), steps);
  }

  /** What is left to send and to receive. */
  function Pending(g: Gather): int {
    2 * (|g.window| - |Sent(g.answers)|) + |g.channel|
  }

  lemma PendingBound(g: Gather)
    requires Consistent(g)
    ensures Pending(g) >= 0 && |Sent(g.answers)| == |g.channel| + |g.collected|
  {
    SentSize(g.answers);
    assert |multiset(g.channel) + multiset(g.collected)| == |g.channel| + |g.collected|;
  }

  /** Every step but a timeout that changes anything brings the end nearer. */
  lemma StepsProgress(g: Gather, step: Step)
    requires Consistent(g) && !step.Tick? && Apply(g, step) != g
    ensures 0 <= Pending(Apply(g, step)) < Pending(g)
  {
    match step {
      case Send(i, data) =>
        PendingBound(g);
        SentUpdate(g.answers, i, Stats(g.window[i], data));
      case Receive =>
    }
    ApplyKeeps(g, step);
    PendingBound(Apply(g, step));
  }

  /** Short of a timeout the collector is never stuck: while it collects, a query can send or a result
      waits. */
  lemma CollectorProgresses(g: Gather) returns (step: Step)
    requires Consistent(g) && g.phase.Collecting?
    ensures !step.Tick? && Apply(g, step) != g && 0 <= Pending(Apply(g, step)) < Pending(g)
  {
    PendingBound(g);
    if g.channel != [] {
      step := Receive;
    } else {
      SentSize(g.answers);
      var i :| 0 <= i < |g.answers| && g.answers[i].None?;
      step := Send(i, None);
      assert Apply(g, step).answers[i].Some?;
    }
    StepsProgress(g, step);
  }
}
