/** The five usage counters, added in 64 bits. */
module CounterSums {
  import opened Integers
  import Groups

  datatype Counters = Counters(messagesIn: U64, bytesIn: U64, messagesOut: U64, bytesOut: U64, backlog: U64)

  const ZERO := Counters(0, 0, 0, 0, 0)

  function Plus(a: Counters, b: Counters): Counters {
    Counters(Add(a.messagesIn, b.messagesIn), Add(a.bytesIn, b.bytesIn), Add(a.messagesOut, b.messagesOut),
             Add(a.bytesOut, b.bytesOut), Add(a.backlog, b.backlog))
  }

  lemma PlusAssociative(a: Counters, b: Counters, c: Counters)
    ensures Plus(Plus(a, b), c) == Plus(a, Plus(b, c))
  {
    AddLaws(a.messagesIn, b.messagesIn, c.messagesIn);
    AddLaws(a.bytesIn, b.bytesIn, c.bytesIn);
    AddLaws(a.messagesOut, b.messagesOut, c.messagesOut);
    AddLaws(a.bytesOut, b.bytesOut, c.bytesOut);
    AddLaws(a.backlog, b.backlog, c.backlog);
  }

  lemma PlusCommutative(a: Counters, b: Counters)
    ensures Plus(a, b) == Plus(b, a)
  {
  }

  lemma PlusZero(a: Counters)
    ensures Plus(ZERO, a) == a == Plus(a, ZERO)
  {
  }

  function Sum(s: seq<Counters>): Counters {
    if s == [] then ZERO else Plus(Sum(s[..|s| - 1]), s[|s| - 1])
  }

  lemma SumLast(s: seq<Counters>, last: Counters)
    ensures Sum(s + [last]) == Plus(Sum(s), last)
  {
  }

  lemma {:induction false} SumAppend(a: seq<Counters>, b: seq<Counters>)
    ensures Sum(a + b) == Plus(Sum(a), Sum(b))
    decreases |b|
  {
    if b == [] {
      assert a + b == a;
      PlusZero(Sum(a));
    } else {
      var front, last := b[..|b| - 1], b[|b| - 1];
      SumAppend(a, front);
      assert a + b == a + front + [last];
      SumLast(a + front, last);
      PlusAssociative(Sum(a), Sum(front), last);
    }
  }

  /** Adding in any order gives the same sum. */
  lemma {:induction false} SumPermutes(a: seq<Counters>, b: seq<Counters>)
    requires multiset(a) == multiset(b)
    ensures Sum(a) == Sum(b)
    decreases |a|
  {
    if a != [] {
      var i := Groups.PermuteRemove(a, b);
      var before, last, after := b[..i], b[i], b[i + 1..];
      SumPermutes(a[..|a| - 1], before + after);
      SumAppend(before, after);
      assert b == before + [last] + after;
      SumAppend(before + [last], after);
      SumLast(before, last);
      PlusAssociative(Sum(before), last, Sum(after));
      PlusCommutative(last, Sum(after));
      PlusAssociative(Sum(before), Sum(after), last);
    } else {
      assert |multiset(b)| == |b|;
    }
  }
}
