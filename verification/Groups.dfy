/** Rows grouped by a key: the groups, put together, are the rows again. */
module Groups {
  import opened Text

  /** The rows with key `k`, in order. */
  function Select<R, K(==)>(rows: seq<R>, key: R -> K, k: K): (group: seq<R>)
    ensures |group| <= |rows|
  {
    if rows == [] then []
    else
      var last := rows[|rows| - 1];
      Select(rows[..|rows| - 1], key, k) + if key(last) == k then [last] else []
  }

  /** The rows with any other key. */
  function Except<R, K(==)>(rows: seq<R>, key: R -> K, k: K): seq<R> {
    if rows == [] then []
    else
      var last := rows[|rows| - 1];
      Except(rows[..|rows| - 1], key, k) + if key(last) == k then [] else [last]
  }

  /** The groups of the keys `ks`, one after the other. */
  function Gather<R, K(==)>(rows: seq<R>, key: R -> K, ks: seq<K>): seq<R> {
    if ks == [] then [] else Select(rows, key, ks[0]) + Gather(rows, key, ks[1..])
  }

  ghost predicate Covers<R(!new), K(!new)>(rows: seq<R>, key: R -> K, ks: seq<K>) {
    forall r :: r in rows ==> key(r) in ks
  }

  lemma SelectLast<R, K>(rows: seq<R>, last: R, key: R -> K, k: K)
    ensures Select(rows + [last], key, k) == Select(rows, key, k) + if key(last) == k then [last] else []
  {
  }

  lemma {:induction false} SelectSplits<R, K>(rows: seq<R>, key: R -> K, k: K)
    ensures multiset(rows) == multiset(Select(rows, key, k)) + multiset(Except(rows, key, k))
  {
    if rows != [] {
      var front, last := rows[..|rows| - 1], rows[|rows| - 1];
      SelectSplits(front, key, k);
      assert multiset(rows) == multiset(front) + multiset{last} by {
        assert rows == front + [last];
      }
      var group, rest := Select(front, key, k), Except(front, key, k);
      if key(last) == k {
        assert multiset(group + [last]) == multiset(group) + multiset{last};
        assert Except(rows, key, k) == rest;
      } else {
        assert multiset(rest + [last]) == multiset(rest) + multiset{last};
        assert Select(rows, key, k) == group;
      }
    }
  }

  lemma {:induction false} SelectIn<R, K>(rows: seq<R>, key: R -> K, k: K, row: R)
    ensures row in Select(rows, key, k) <==> row in rows && key(row) == k
  {
    if rows != [] {
      SelectIn(rows[..|rows| - 1], key, k, row);
      assert rows == rows[..|rows| - 1] + [rows[|rows| - 1]];
    }
  }

  /** A row of the group stands after those of the group before it. */
  lemma {:induction false} SelectAt<R, K>(rows: seq<R>, key: R -> K, k: K, i: nat)
    requires i < |rows| && key(rows[i]) == k
    ensures var at := |Select(rows[..i], key, k)|;
            at < |Select(rows, key, k)| && Select(rows, key, k)[at] == rows[i]
    decreases |rows|
  {
    var front := rows[..|rows| - 1];
    if i < |front| {
      assert front[..i] == rows[..i];
      SelectAt(front, key, k, i);
    } else {
      assert rows[..i] == front;
    }
  }

  lemma {:induction false} SelectExcept<R, K>(rows: seq<R>, key: R -> K, k: K, other: K)
    requires k != other
    ensures Select(Except(rows, key, k), key, other) == Select(rows, key, other)
  {
    if rows != [] {
      var front, last := rows[..|rows| - 1], rows[|rows| - 1];
      SelectExcept(front, key, k, other);
      assert key(last) == k ==> Except(rows, key, k) == Except(front, key, k);
      SelectLast(Except(front, key, k), last, key, other);
    }
  }

  lemma {:induction false} GatherExcept<R, K>(rows: seq<R>, key: R -> K, k: K, ks: seq<K>)
    requires k !in ks
    ensures Gather(Except(rows, key, k), key, ks) == Gather(rows, key, ks)
  {
    if ks != [] {
      SelectExcept(rows, key, k, ks[0]);
      GatherExcept(rows, key, k, ks[1..]);
    }
  }

  lemma {:induction false} ExceptIn<R, K>(rows: seq<R>, key: R -> K, k: K, row: R)
    ensures row in Except(rows, key, k) <==> row in rows && key(row) != k
  {
    if rows != [] {
      ExceptIn(rows[..|rows| - 1], key, k, row);
      assert rows == rows[..|rows| - 1] + [rows[|rows| - 1]];
    }
  }

  lemma ExceptCovers<R(!new), K(!new)>(rows: seq<R>, key: R -> K, k: K, ks: seq<K>)
    requires Covers(rows, key, [k] + ks)
    ensures Covers(Except(rows, key, k), key, ks)
  {
  }

  /** Over distinct keys that cover the rows, the groups are a rearrangement of the rows. */
  lemma {:induction false} GatherPermutes<R(!new), K(!new)>(rows: seq<R>, key: R -> K, ks: seq<K>)
    requires Distinct(ks) && Covers(rows, key, ks)
    ensures multiset(Gather(rows, key, ks)) == multiset(rows)
    decreases |ks|
  {
    if ks == [] {
      if rows != [] {
        var r := AnyElement(rows);
      }
    } else {
      assert ks == [ks[0]] + ks[1..];
      ExceptCovers(rows, key, ks[0], ks[1..]);
      GatherPermutes(Except(rows, key, ks[0]), key, ks[1..]);
      GatherExcept(rows, key, ks[0], ks[1..]);
      SelectSplits(rows, key, ks[0]);
    }
  }

  /** A rearrangement, with one element taken out of both. */
  lemma PermuteRemove<R>(a: seq<R>, b: seq<R>) returns (i: nat)
    requires a != [] && multiset(a) == multiset(b)
    ensures i < |b| && b[i] == a[|a| - 1]
    ensures multiset(a[..|a| - 1]) == multiset(b[..i] + b[i + 1..])
  {
    var front, last := a[..|a| - 1], a[|a| - 1];
    assert a == front + [last];
    assert last in multiset(b);
    i :| 0 <= i < |b| && b[i] == last;
    assert b == b[..i] + [last] + b[i + 1..];
    assert multiset(front) == multiset(a) - multiset{last};
    assert multiset(b[..i] + b[i + 1..]) == multiset(b) - multiset{last};
  }
}
