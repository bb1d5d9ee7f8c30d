/**
 An ordered map with byte-string keys (`BTreeMap<String, V>`), represented by the
 sequence of its entries in iteration order. Two such maps are equal exactly when
 their entry sequences are.
 */
module SortedMap {
  import opened Prelude
  import opened Text

  datatype Entry<+V> = Entry(key: Bytes, val: V)

  /** `k` comes strictly before every key of `m`. */
  predicate Below<V>(k: Bytes, m: seq<Entry<V>>) {
    forall i :: 0 <= i < |m| ==> Less(k, m[i].key)
  }

  predicate Sorted<V>(m: seq<Entry<V>>)
    decreases |m|
  {
    m == [] || (Below(m[0].key, m[1..]) && Sorted(m[1..]))
  }

  function Get<V>(m: seq<Entry<V>>, k: Bytes): Option<V>
    decreases |m|
  {
    if m == [] then None
    else if m[0].key == k then Some(m[0].val)
    else Get(m[1..], k)
  }

  function Insert<V>(m: seq<Entry<V>>, k: Bytes, v: V): (r: seq<Entry<V>>)
    ensures r != []
    decreases |m|
  {
    if m == [] then [Entry(k, v)]
    else if Less(k, m[0].key) then [Entry(k, v)] + m
    else if k == m[0].key then [Entry(k, v)] + m[1..]
    else [m[0]] + Insert(m[1..], k, v)
  }

  function Remove<V>(m: seq<Entry<V>>, k: Bytes): seq<Entry<V>>
    decreases |m|
  {
    if m == [] then []
    else if k == m[0].key then m[1..]
    else [m[0]] + Remove(m[1..], k)
  }

  lemma BelowTrans<V>(k: Bytes, l: Bytes, m: seq<Entry<V>>)
    requires Less(k, l) && Below(l, m)
    ensures Below(k, m)
  {
    forall i | 0 <= i < |m| ensures Less(k, m[i].key) {
      LessTransitive(k, l, m[i].key);
    }
  }

  lemma {:induction false} BelowInsert<V>(b: Bytes, m: seq<Entry<V>>, k: Bytes, v: V)
    requires Below(b, m) && Less(b, k)
    ensures Below(b, Insert(m, k, v))
    decreases |m|
  {
    if m != [] && !Less(k, m[0].key) && k != m[0].key {
      BelowInsert(b, m[1..], k, v);
    }
  }

  lemma {:induction false} BelowRemove<V>(b: Bytes, m: seq<Entry<V>>, k: Bytes)
    requires Below(b, m)
    ensures Below(b, Remove(m, k))
    decreases |m|
  {
    if m != [] && k != m[0].key {
      BelowRemove(b, m[1..], k);
    }
  }

  lemma {:induction false} InsertSorted<V>(m: seq<Entry<V>>, k: Bytes, v: V)
    requires Sorted(m)
    ensures Sorted(Insert(m, k, v))
    decreases |m|
  {
    if m != [] {
      LessTotal(k, m[0].key);
      if Less(k, m[0].key) {
        BelowTrans(k, m[0].key, m[1..]);
        assert ([Entry(k, v)] + m)[1..] == m;
      } else if k != m[0].key {
        InsertSorted(m[1..], k, v);
        BelowInsert(m[0].key, m[1..], k, v);
      }
    }
  }

  lemma {:induction false} RemoveSorted<V>(m: seq<Entry<V>>, k: Bytes)
    requires Sorted(m)
    ensures Sorted(Remove(m, k))
    decreases |m|
  {
    if m != [] && k != m[0].key {
      RemoveSorted(m[1..], k);
      BelowRemove(m[0].key, m[1..], k);
    }
  }

  lemma {:induction false} GetInsert<V>(m: seq<Entry<V>>, k: Bytes, v: V, q: Bytes)
    requires Sorted(m)
    ensures Get(Insert(m, k, v), q) == if q == k then Some(v) else Get(m, q)
    decreases |m|
  {
    if m != [] {
      LessIrreflexive(k);
      if Less(k, m[0].key) {
        assert ([Entry(k, v)] + m)[1..] == m;
      } else if k != m[0].key {
        GetInsert(m[1..], k, v, q);
      }
    }
  }

  /** A key that comes before all the others is not among them. */
  lemma {:induction false} GetBelow<V>(k: Bytes, m: seq<Entry<V>>)
    requires Below(k, m)
    ensures Get(m, k) == None
    decreases |m|
  {
    if m != [] {
      LessIrreflexive(k);
      GetBelow(k, m[1..]);
    }
  }

  lemma {:induction false} GetRemove<V>(m: seq<Entry<V>>, k: Bytes, q: Bytes)
    requires Sorted(m)
    ensures Get(Remove(m, k), q) == if q == k then None else Get(m, q)
    decreases |m|
  {
    if m != [] {
      if k == m[0].key {
        GetBelow(k, m[1..]);
      } else {
        GetRemove(m[1..], k, q);
      }
    }
  }

  /** Inserting past the end appends. */
  lemma {:induction false} InsertAtEnd<V>(m: seq<Entry<V>>, k: Bytes, v: V)
    requires forall i :: 0 <= i < |m| ==> Less(m[i].key, k)
    ensures Insert(m, k, v) == m + [Entry(k, v)]
    decreases |m|
  {
    if m != [] {
      assert Less(m[0].key, k);
      LessIrreflexive(k);
      if Less(k, m[0].key) {
        LessTransitive(k, m[0].key, k);
        assert false;
      }
      InsertAtEnd(m[1..], k, v);
    }
  }

  /** `Get` finds exactly the entries of a sorted map. */
  lemma {:induction false} GetEntry<V>(m: seq<Entry<V>>, i: nat)
    requires Sorted(m) && i < |m|
    ensures Get(m, m[i].key) == Some(m[i].val)
    decreases |m|
  {
    if i > 0 {
      GetEntry(m[1..], i - 1);
      assert m[1..][i - 1] == m[i];
      LessIrreflexive(m[0].key);
    }
  }

  lemma {:induction false} GetFinds<V>(m: seq<Entry<V>>, k: Bytes)
    requires Get(m, k).Some?
    ensures Entry(k, Get(m, k).value) in m
    decreases |m|
  {
    if m[0].key != k {
      GetFinds(m[1..], k);
    }
  }

  ghost predicate SameLookups<V>(a: seq<Entry<V>>, b: seq<Entry<V>>) {
    forall k :: Get(a, k) == Get(b, k)
  }

  lemma TailLookups<V>(a: seq<Entry<V>>, b: seq<Entry<V>>)
    requires Sorted(a) && Sorted(b) && a != [] && b != [] && a[0] == b[0]
    requires SameLookups(a, b)
    ensures SameLookups(a[1..], b[1..])
  {
    forall k ensures Get(a[1..], k) == Get(b[1..], k) {
      assert Get(a, k) == Get(b, k);
      if k == a[0].key {
        GetBelow(k, a[1..]);
        GetBelow(k, b[1..]);
      }
    }
  }

  lemma SameHead<V>(a: seq<Entry<V>>, b: seq<Entry<V>>)
    requires Sorted(a) && Sorted(b) && a != [] && b != []
    requires SameLookups(a, b)
    ensures a[0] == b[0]
  {
    assert Get(a, a[0].key) == Get(b, a[0].key);
    assert Get(a, b[0].key) == Get(b, b[0].key);
    GetFinds(b, a[0].key);
    GetFinds(a, b[0].key);
    if a[0].key != b[0].key {
      LessTransitive(a[0].key, b[0].key, a[0].key);
      LessIrreflexive(a[0].key);
    }
  }

  /** Maps that answer every lookup alike are the same map. */
  lemma {:induction false} Extensional<V>(a: seq<Entry<V>>, b: seq<Entry<V>>)
    requires Sorted(a) && Sorted(b)
    requires SameLookups(a, b)
    ensures a == b
    decreases |a|
  {
    var probe := if a != [] then a[0].key else if b != [] then b[0].key else [];
    assert Get(a, probe) == Get(b, probe);
    if a != [] && b != [] {
      SameHead(a, b);
      TailLookups(a, b);
      Extensional(a[1..], b[1..]);
      assert a == [a[0]] + a[1..] && b == [b[0]] + b[1..];
    }
  }

  /** The entries of `es` inserted into `m` in order. */
  function InsertAll<V>(m: seq<Entry<V>>, es: seq<Entry<V>>): seq<Entry<V>>
    decreases |es|
  {
    if es == [] then m else InsertAll(Insert(m, es[0].key, es[0].val), es[1..])
  }

  /** Every key of `m` comes before every key of `es`. */
  predicate Before<V>(m: seq<Entry<V>>, es: seq<Entry<V>>) {
    forall i, j :: 0 <= i < |m| && 0 <= j < |es| ==> Less(m[i].key, es[j].key)
  }

  lemma BeforeStep<V>(m: seq<Entry<V>>, es: seq<Entry<V>>)
    requires es != [] && Sorted(es) && Before(m, es)
    ensures Before(m + [es[0]], es[1..])
  {
    assert Below(es[0].key, es[1..]);
  }

  /** Inserting the entries of a sorted map in order appends them. */
  lemma {:induction false} InsertAllSorted<V>(m: seq<Entry<V>>, es: seq<Entry<V>>)
    requires Sorted(es) && Before(m, es)
    ensures InsertAll(m, es) == m + es
    decreases |es|
  {
    if es == [] {
      assert m + es == m;
    } else {
      InsertAtEnd(m, es[0].key, es[0].val);
      BeforeStep(m, es);
      InsertAllSorted(m + [es[0]], es[1..]);
      MoveHead(m, es);
    }
  }

  lemma MoveHead<V>(m: seq<V>, es: seq<V>)
    requires es != []
    ensures m + [es[0]] + es[1..] == m + es
  {
  }
}
