/** The operations of Go's `strings` package that the program relies on, over any
    element type: the log server applies them to bytes, the rest to characters. */
module Text {

  datatype Option<+T> = None | Some(value: T)

  ghost predicate Distinct<T>(s: seq<T>) {
    forall i, j :: 0 <= i < j < |s| ==> s[i] != s[j]
  }

  lemma AnyElement<T>(s: seq<T>) returns (x: T)
    requires s != []
    ensures x in s
  {
    x := s[0];
  }

  /** Position of the first `x` in `s`, or |s| when there is none. */
  function IndexOf<T(==)>(s: seq<T>, x: T): (i: nat)
    ensures i <= |s|
  {
    if |s| == 0 || s[0] == x then 0 else 1 + IndexOf(s[1..], x)
  }

  lemma {:induction false} IndexOfFirst<T>(s: seq<T>, x: T)
    ensures var i := IndexOf(s, x);
            && (x in s <==> i < |s|)
            && (i < |s| ==> s[i] == x)
            && forall k :: 0 <= k < i ==> s[k] != x
  {
    if |s| > 0 {
      IndexOfFirst(s[1..], x);
    }
  }

  /** Position of the last `x` in `s`, or -1 when there is none. */
  function LastIndexOf<T(==)>(s: seq<T>, x: T): (i: int)
    ensures -1 <= i < |s|
  {
    if |s| == 0 || s[|s| - 1] == x then |s| - 1 else LastIndexOf(s[..|s| - 1], x)
  }

  lemma {:induction false} LastIndexOfLast<T>(s: seq<T>, x: T)
    ensures var i := LastIndexOf(s, x);
            && (x in s <==> 0 <= i)
            && (0 <= i ==> s[i] == x)
            && forall k :: i < k < |s| ==> s[k] != x
  {
    if |s| > 0 {
      LastIndexOfLast(s[..|s| - 1], x);
    }
  }

  /** strings.Split for a one-element separator: always at least one part. */
  function Split<T(==)>(s: seq<T>, sep: T): (parts: seq<seq<T>>)
    ensures |parts| >= 1
  {
    var i := IndexOf(s, sep);
    if i == |s| then [s] else [s[..i]] + Split(s[i + 1..], sep)
  }

  /** strings.Join. */
  function Join<T>(parts: seq<seq<T>>, sep: seq<T>): seq<T> {
    if |parts| == 0 then []
    else if |parts| == 1 then parts[0]
    else parts[0] + sep + Join(parts[1..], sep)
  }

  ghost predicate SepFree<T>(parts: seq<seq<T>>, sep: T) {
    forall k :: 0 <= k < |parts| ==> sep !in parts[k]
  }

  lemma {:induction false} SplitSepFree<T>(s: seq<T>, sep: T)
    ensures SepFree(Split(s, sep), sep)
  {
    var i := IndexOf(s, sep);
    IndexOfFirst(s, sep);
    if i < |s| {
      SplitSepFree(s[i + 1..], sep);
    }
  }

  lemma JoinCons<T>(p: seq<T>, rest: seq<seq<T>>, sep: seq<T>)
    requires |rest| >= 1
    ensures Join([p] + rest, sep) == p + sep + Join(rest, sep)
  {
  }

  lemma {:induction false} JoinSplit<T>(s: seq<T>, sep: T)
    ensures Join(Split(s, sep), [sep]) == s
  {
    var i := IndexOf(s, sep);
    IndexOfFirst(s, sep);
    if i < |s| {
      JoinSplit(s[i + 1..], sep);
      JoinCons(s[..i], Split(s[i + 1..], sep), [sep]);
    }
  }

  lemma {:induction false} IndexOfAfter<T>(p: seq<T>, x: T, rest: seq<T>)
    requires x !in p
    ensures IndexOf(p + [x] + rest, x) == |p|
  {
    if |p| > 0 {
      IndexOfAfter(p[1..], x, rest);
      assert (p + [x] + rest)[1..] == p[1..] + [x] + rest;
    }
  }

  lemma SplitCons<T>(p: seq<T>, sep: T, tail: seq<T>)
    requires sep !in p
    ensures Split(p + [sep] + tail, sep) == [p] + Split(tail, sep)
  {
    IndexOfAfter(p, sep, tail);
    var s := p + [sep] + tail;
    assert s[..|p|] == p && s[|p| + 1..] == tail;
  }

  lemma {:induction false} SplitJoin<T>(parts: seq<seq<T>>, sep: T)
    requires |parts| >= 1 && SepFree(parts, sep)
    ensures Split(Join(parts, [sep]), sep) == parts
  {
    if |parts| > 1 {
      SplitJoin(parts[1..], sep);
      SplitCons(parts[0], sep, Join(parts[1..], [sep]));
      assert parts == [parts[0]] + parts[1..];
    } else {
      IndexOfFirst(parts[0], sep);
    }
  }

  /** Joining with one more part at the end. */
  lemma {:induction false} JoinAppend<T>(parts: seq<seq<T>>, last: seq<T>, sep: seq<T>)
    requires |parts| >= 1
    ensures Join(parts + [last], sep) == Join(parts, sep) + sep + last
  {
    if |parts| > 1 {
      JoinAppend(parts[1..], last, sep);
      assert (parts + [last])[1..] == parts[1..] + [last];
    } else {
      assert (parts + [last])[1..] == [last];
    }
  }

  /** A text cut in two at a separator, read back as one more part than its head. */
  lemma SplitAppend<T>(head: seq<T>, last: seq<T>, sep: T)
    requires sep !in last
    ensures Split(head + [sep] + last, sep) == Split(head, sep) + [last]
  {
    var parts := Split(head, sep);
    SplitSepFree(head, sep);
    JoinSplit(head, sep);
    JoinAppend(parts, last, [sep]);
    SplitJoin(parts + [last], sep);
  }

  predicate HasPrefix<T(==)>(s: seq<T>, prefix: seq<T>) {
    prefix <= s
  }

  // ---- Splitting at a longer separator ----

  predicate OccursAt(s: string, sep: string, i: nat) {
    i + |sep| <= |s| && s[i..i + |sep|] == sep
  }

  /** strings.Index: where `sep` first occurs, or -1. */
  function IndexOfString(s: string, sep: string): (i: int)
    ensures i >= 0 ==> OccursAt(s, sep, i)
    ensures i < 0 ==> i == -1
  {
    if |s| < |sep| then -1
    else if s[..|sep|] == sep then 0
    else if s == [] then -1
    else
      var i := IndexOfString(s[1..], sep);
      if i < 0 then -1
      else
        assert s[1..][i..i + |sep|] == s[i + 1..i + 1 + |sep|];
        i + 1
  }

  lemma {:induction false} IndexOfStringFirst(s: string, sep: string, at: nat)
    requires OccursAt(s, sep, at)
    ensures 0 <= IndexOfString(s, sep) <= at
  {
    if at > 0 && s[..|sep|] != sep {
      assert s[1..][at - 1..at - 1 + |sep|] == s[at..at + |sep|];
      IndexOfStringFirst(s[1..], sep, at - 1);
    }
  }

  /** strings.Split for a nonempty separator. */
  function SplitString(s: string, sep: string): (parts: seq<string>)
    requires sep != []
    ensures |parts| >= 1
  {
    var i := IndexOfString(s, sep);
    if i < 0 then [s] else [s[..i]] + SplitString(s[i + |sep|..], sep)
  }
}
