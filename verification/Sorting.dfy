/** sort.Strings: the strings in byte order. */
module Sorting {
  import opened Text

  predicate Leq(a: string, b: string) {
    a == [] || (b != [] && (a[0] < b[0] || (a[0] == b[0] && Leq(a[1..], b[1..]))))
  }

  /** The strings first differ at `k`, where `a` has the smaller character. */
  ghost predicate SmallerAt(a: string, b: string, k: nat) {
    k < |a| && k < |b| && a[..k] == b[..k] && a[k] < b[k]
  }

  /** Dictionary order: a prefix comes first, and otherwise the first difference decides. */
  lemma {:induction false} LeqMeans(a: string, b: string)
    ensures Leq(a, b) <==> a <= b || exists k :: SmallerAt(a, b, k)
  {
    if a != [] && b != [] {
      LeqMeans(a[1..], b[1..]);
      if a[0] < b[0] {
        assert SmallerAt(a, b, 0);
      }
      if a[0] == b[0] {
        assert a <= b <==> a[1..] <= b[1..];
        if k: nat :| SmallerAt(a[1..], b[1..], k) {
          assert a[..k + 1] == [a[0]] + a[1..][..k] && b[..k + 1] == [b[0]] + b[1..][..k];
          assert SmallerAt(a, b, k + 1);
        }
      }
      if k: nat :| SmallerAt(a, b, k) {
        SmallerLater(a, b, k);
      }
    }
  }

  lemma SmallerLater(a: string, b: string, k: nat)
    requires SmallerAt(a, b, k)
    ensures if k == 0 then a[0] < b[0] else a[0] == b[0] && SmallerAt(a[1..], b[1..], k - 1)
  {
    if k > 0 {
      assert a[0] == a[..k][0] && b[0] == b[..k][0];
      assert a[1..][..k - 1] == a[..k][1..] && b[1..][..k - 1] == b[..k][1..];
    }
  }

  lemma {:induction false} LeqTotal(a: string, b: string)
    ensures Leq(a, b) || Leq(b, a)
  {
    if a != [] && b != [] {
      LeqTotal(a[1..], b[1..]);
    }
  }

  lemma {:induction false} LeqAntisymmetric(a: string, b: string)
    requires Leq(a, b) && Leq(b, a)
    ensures a == b
  {
    if a != [] && b != [] {
      LeqAntisymmetric(a[1..], b[1..]);
      assert a == [a[0]] + a[1..] && b == [b[0]] + b[1..];
    }
  }

  lemma {:induction false} LeqTransitive(a: string, b: string, c: string)
    requires Leq(a, b) && Leq(b, c)
    ensures Leq(a, c)
  {
    if a != [] && b != [] && c != [] && a[0] == b[0] == c[0] {
      LeqTransitive(a[1..], b[1..], c[1..]);
    }
  }

  ghost predicate Ascending(s: seq<string>) {
    forall i, j :: 0 <= i < j < |s| ==> Leq(s[i], s[j]) && s[i] != s[j]
  }

  function Insert(s: seq<string>, x: string): seq<string> {
    if s == [] then [x] else if Leq(x, s[0]) then [x] + s else [s[0]] + Insert(s[1..], x)
  }

  function SortStrings(s: seq<string>): seq<string> {
    if s == [] then [] else Insert(SortStrings(s[1..]), s[0])
  }

  lemma {:induction false} InsertElements(s: seq<string>, x: string, y: string)
    ensures y in Insert(s, x) <==> y == x || y in s
    ensures |Insert(s, x)| == |s| + 1
  {
    if s != [] && !Leq(x, s[0]) {
      InsertElements(s[1..], x, y);
      assert s == [s[0]] + s[1..];
    }
  }

  lemma AscendingCons(x: string, s: seq<string>)
    requires Ascending(s)
    requires forall y :: y in s ==> Leq(x, y) && x != y
    ensures Ascending([x] + s)
  {
  }

  lemma LeastFirst(s: seq<string>, y: string)
    requires Ascending(s) && y in s
    ensures Leq(s[0], y)
  {
    LeqTotal(y, y);
  }

  lemma {:induction false} InsertAscending(s: seq<string>, x: string)
    requires Ascending(s) && x !in s
    ensures Ascending(Insert(s, x))
  {
    if s != [] {
      LeqTotal(x, s[0]);
      var tail := s[1..];
      assert Ascending(tail);
      assert s == [s[0]] + tail;
      if Leq(x, s[0]) {
        forall y | y in s
          ensures Leq(x, y)
        {
          LeastFirst(s, y);
          LeqTransitive(x, s[0], y);
        }
        AscendingCons(x, s);
      } else {
        InsertAscending(tail, x);
        forall y | y in Insert(tail, x)
          ensures Leq(s[0], y) && s[0] != y
        {
          InsertElements(tail, x, y);
        }
        AscendingCons(s[0], Insert(tail, x));
      }
    }
  }

  lemma {:induction false} SortElements(s: seq<string>, y: string)
    ensures y in SortStrings(s) <==> y in s
    ensures |SortStrings(s)| == |s|
  {
    if s != [] {
      SortElements(s[1..], y);
      InsertElements(SortStrings(s[1..]), s[0], y);
      assert s == [s[0]] + s[1..];
    }
  }

  lemma {:induction false} SortAscending(s: seq<string>)
    requires Distinct(s)
    ensures Ascending(SortStrings(s))
  {
    if s != [] {
      SortAscending(s[1..]);
      SortElements(s[1..], s[0]);
      InsertAscending(SortStrings(s[1..]), s[0]);
    }
  }

  /** Two ascending listings of the same strings are the same listing. */
  lemma {:induction false} AscendingUnique(a: seq<string>, b: seq<string>)
    requires Ascending(a) && Ascending(b)
    requires forall y :: y in a <==> y in b
    ensures a == b
  {
    if a == [] && b != [] {
      var y := AnyElement(b);
    } else if b == [] && a != [] {
      var y := AnyElement(a);
    } else if a != [] {
      assert a == [a[0]] + a[1..] && b == [b[0]] + b[1..];
      assert a[0] in b && b[0] in a;
      LeastFirst(a, b[0]);
      LeastFirst(b, a[0]);
      LeqAntisymmetric(a[0], b[0]);
      forall y
        ensures y in a[1..] <==> y in b[1..]
      {
        assert y in a[1..] <==> y in a && y != a[0];
        assert y in b[1..] <==> y in b && y != b[0];
      }
      AscendingUnique(a[1..], b[1..]);
    }
  }

  /** The order a sort returns depends only on which strings there are. */
  lemma SortCanonical(a: seq<string>, b: seq<string>)
    requires Distinct(a) && Distinct(b)
    requires forall y :: y in a <==> y in b
    ensures SortStrings(a) == SortStrings(b)
  {
    SortAscending(a);
    SortAscending(b);
    forall y
      ensures y in SortStrings(a) <==> y in SortStrings(b)
    {
      SortElements(a, y);
      SortElements(b, y);
    }
    AscendingUnique(SortStrings(a), SortStrings(b));
  }
}
