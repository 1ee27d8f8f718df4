/** std::map and std::set indexed by 160-bit keys: a sequence of pairs in strictly increasing order of the
    number the key stands for (Keys.LessThan shows that operator< of the keys is that order). */
module StdMap {
  predicate Sorted<V>(m: seq<(nat, V)>) {
    forall i, j :: 0 <= i < j < |m| ==> m[i].0 < m[j].0
  }

  function KeySet<V>(m: seq<(nat, V)>): set<nat> {
    set i | 0 <= i < |m| :: m[i].0
  }

  predicate Has<V>(m: seq<(nat, V)>, k: nat) {
    k in KeySet(m)
  }

  /** insert: a key that is already there keeps its old value. */
  function Insert<V>(m: seq<(nat, V)>, k: nat, v: V): (r: seq<(nat, V)>)
  {
    if m == [] then [(k, v)]
    else if m[0].0 == k then m
    else if k < m[0].0 then [(k, v)] + m
    else [m[0]] + Insert(m[1..], k, v)
  }

  /** erase by key. */
  function Erase<V>(m: seq<(nat, V)>, k: nat): (r: seq<(nat, V)>)
  {
    if m == [] then []
    else if m[0].0 == k then m[1..]
    else [m[0]] + Erase(m[1..], k)
  }

  lemma KeySetCons<V>(p: (nat, V), m: seq<(nat, V)>)
    ensures KeySet([p] + m) == {p.0} + KeySet(m)
  {
    var s := [p] + m;
    forall k | k in {p.0} + KeySet(m)
      ensures k in KeySet(s)
    {
      if k == p.0 {
        assert s[0].0 == k;
      } else {
        var i :| 0 <= i < |m| && m[i].0 == k;
        assert s[i + 1].0 == k;
      }
    }
  }

  lemma {:induction false} InsertKeys<V>(m: seq<(nat, V)>, k: nat, v: V)
    requires Sorted(m)
    ensures KeySet(Insert(m, k, v)) == KeySet(m) + {k}
    ensures |Insert(m, k, v)| == |m| + (if Has(m, k) then 0 else 1)
  {
    if m == [] {
      KeySetCons((k, v), m);
    } else {
      assert m == [m[0]] + m[1..];
      KeySetCons(m[0], m[1..]);
      if m[0].0 == k {
      } else if k < m[0].0 {
        KeySetCons((k, v), m);
        BelowAll(m, k);
      } else {
        InsertKeys(m[1..], k, v);
        KeySetCons(m[0], Insert(m[1..], k, v));
      }
    }
  }

  lemma BelowAll<V>(m: seq<(nat, V)>, k: nat)
    requires Sorted(m) && m != [] && k < m[0].0
    ensures !Has(m, k)
  {
  }

  lemma {:induction false} InsertSorted<V>(m: seq<(nat, V)>, k: nat, v: V)
    requires Sorted(m)
    ensures Sorted(Insert(m, k, v))
  {
    if m != [] && m[0].0 != k && k > m[0].0 {
      InsertSorted(m[1..], k, v);
      InsertKeys(m[1..], k, v);
      assert m == [m[0]] + m[1..];
      ConsSorted(m[0], m[1..], Insert(m[1..], k, v), k);
    }
  }

  lemma {:induction false} InsertPresent<V>(m: seq<(nat, V)>, k: nat, v: V)
    requires Sorted(m) && Has(m, k)
    ensures Insert(m, k, v) == m
  {
    if m[0].0 != k {
      assert m == [m[0]] + m[1..];
      KeySetCons(m[0], m[1..]);
      if k < m[0].0 {
        BelowAll(m, k);
      }
      InsertPresent(m[1..], k, v);
    }
  }

  /** insert adds the key, and leaves a container that has it as it was. */
  lemma InsertInto<V>(m: seq<(nat, V)>, k: nat, v: V)
    requires Sorted(m)
    ensures var r := Insert(m, k, v);
            && Sorted(r)
            && KeySet(r) == KeySet(m) + {k}
            && |r| == |m| + (if Has(m, k) then 0 else 1)
            && (Has(m, k) ==> r == m)
  {
    InsertKeys(m, k, v);
    InsertSorted(m, k, v);
    if Has(m, k) {
      InsertPresent(m, k, v);
    }
  }

  lemma ConsSorted<V>(p: (nat, V), rest: seq<(nat, V)>, inner: seq<(nat, V)>, k: nat)
    requires Sorted([p] + rest) && Sorted(inner) && p.0 < k
    requires KeySet(inner) == KeySet(rest) + {k}
    ensures Sorted([p] + inner)
  {
    forall j | 0 <= j < |inner|
      ensures p.0 < inner[j].0
    {
      assert inner[j].0 in KeySet(inner);
      if inner[j].0 != k {
        var i :| 0 <= i < |rest| && rest[i].0 == inner[j].0;
        assert ([p] + rest)[i + 1] == rest[i] && ([p] + rest)[0] == p;
      }
    }
  }

  /** The pairs after insert: the old ones, and the new one if its key was not there. */
  lemma {:induction false} InsertMembers<V>(m: seq<(nat, V)>, k: nat, v: V, p: (nat, V))
    requires Sorted(m)
    ensures p in Insert(m, k, v) <==> p in m || (p == (k, v) && !Has(m, k))
  {
    if m != [] && m[0].0 != k && k > m[0].0 {
      InsertMembers(m[1..], k, v, p);
      KeySetCons(m[0], m[1..]);
      assert m == [m[0]] + m[1..];
    } else if m != [] && m[0].0 == k {
      assert Has(m, k);
    }
  }

  /** Erasing the greatest key drops the last pair. */
  lemma {:induction false} EraseLast<V>(m: seq<(nat, V)>)
    requires Sorted(m) && m != []
    ensures Erase(m, m[|m| - 1].0) == m[..|m| - 1]
  {
    if |m| > 1 {
      assert m[0].0 < m[|m| - 1].0;
      EraseLast(m[1..]);
      assert m[..|m| - 1] == [m[0]] + m[1..][..|m| - 2];
    }
  }

  lemma KeySetSize<V>(m: seq<(nat, V)>)
    requires Sorted(m)
    ensures |KeySet(m)| == |m|
    decreases |m|
  {
    if m == [] {
      assert KeySet(m) == {};
    } else {
      KeySetSize(m[1..]);
      assert m == [m[0]] + m[1..];
      KeySetCons(m[0], m[1..]);
      assert m[0].0 !in KeySet(m[1..]);
    }
  }

  /** A sorted container is determined by the pairs in it. */
  lemma {:induction false} SortedUnique<V>(a: seq<(nat, V)>, b: seq<(nat, V)>)
    requires Sorted(a) && Sorted(b)
    requires forall p :: p in a <==> p in b
    ensures a == b
  {
    BothEmpty(a, b);
    if a != [] {
      assert a[0] in b;
      assert b[0] in a;
      FirstIsLeast(a, b[0]);
      FirstIsLeast(b, a[0]);
      assert a[0] == b[0];
      forall p
        ensures p in a[1..] <==> p in b[1..]
      {
        TailMembers(a, p);
        TailMembers(b, p);
      }
      SortedUnique(a[1..], b[1..]);
      assert a == [a[0]] + a[1..] && b == [b[0]] + b[1..];
    }
  }

  lemma BothEmpty<V>(a: seq<(nat, V)>, b: seq<(nat, V)>)
    requires forall p :: p in a <==> p in b
    ensures a == [] <==> b == []
  {
    if a != [] {
      assert a[0] in b;
    }
    if b != [] {
      assert b[0] in a;
    }
  }

  lemma FirstIsLeast<V>(a: seq<(nat, V)>, p: (nat, V))
    requires Sorted(a) && p in a
    ensures p == a[0] || a[0].0 < p.0
  {
  }

  lemma TailMembers<V>(a: seq<(nat, V)>, p: (nat, V))
    requires Sorted(a) && a != []
    ensures p in a[1..] <==> p in a && p != a[0]
  {
    assert a == [a[0]] + a[1..];
    if p in a[1..] {
      assert a[0].0 < p.0;
    }
  }

  /** Dropping the first pair of a sorted container removes its key and no other. */
  lemma DropFirst<V>(m: seq<(nat, V)>)
    requires Sorted(m) && m != []
    ensures Sorted(m[1..]) && KeySet(m[1..]) == KeySet(m) - {m[0].0} && m[0].0 in KeySet(m)
  {
    assert m == [m[0]] + m[1..];
    KeySetCons(m[0], m[1..]);
  }
}
