/**
 The state of one app-state collection (crates/wa-core/src/app_state.rs): a version,
 the homomorphic hash of its value MACs, and the MAC stored under each index.
 */
module PatchState {
  import opened Prelude
  import opened Text
  import opened SortedMap
  import opened LtHash
  import opened AppCrypto
  import Base64

  const U64_MAX: nat := 0xFFFF_FFFF_FFFF_FFFF

  type MacMap = seq<Entry<Bytes>>

  datatype State = State(version: nat, hash: Hash, macs: MacMap)

  datatype HashMutation = HashMutation(op: Operation, indexMac: Bytes, valueMac: Bytes)

  datatype StateError = BadMacLength | BadHashLength | VersionOverflow

  const EMPTY: State := State(0, ZERO, [])

  /** `index_mac_key` */
  function IndexKey(indexMac: Bytes): Result<Bytes, StateError> {
    if |indexMac| != MAC_LEN then Err(BadMacLength) else Ok(Base64.Encode(indexMac))
  }

  /** What a pass over the mutations leaves: the new map, and the MACs to subtract and to add. */
  datatype Collected = Collected(macs: MacMap, subtract: seq<Bytes>, add: seq<Bytes>)

  /** The MACs to subtract once the one stored under `key` is replaced or removed. */
  function WithPrevious(c: Collected, key: Bytes): seq<Bytes> {
    var previous := Get(c.macs, key);
    if previous.Some? then c.subtract + [previous.value] else c.subtract
  }

  /** One mutation: setting replaces, removing an absent index does nothing. */
  function CollectOne(c: Collected, m: HashMutation): Result<Collected, StateError> {
    var key :- IndexKey(m.indexMac);
    var subtract := WithPrevious(c, key);
    match m.op
    case Set => Ok(Collected(Insert(c.macs, key, m.valueMac), subtract, c.add + [m.valueMac]))
    case Remove =>
      if Get(c.macs, key).None? then Ok(c)
      else Ok(Collected(SortedMap.Remove(c.macs, key), subtract, c.add))
  }

  function Collect(c: Collected, ms: seq<HashMutation>): Result<Collected, StateError>
    decreases |ms|
  {
    if ms == [] then Ok(c)
    else
      var next :- CollectOne(c, ms[0]);
      Collect(next, ms[1..])
  }

  function SubtractAll(P: Primitives, h: Hash, macs: seq<Bytes>): Hash
    decreases |macs|
  {
    if macs == [] then h else SubtractAll(P, Sub(h, P.expandMac(macs[0])), macs[1..])
  }

  function AddAll(P: Primitives, h: Hash, macs: seq<Bytes>): Hash
    decreases |macs|
  {
    if macs == [] then h else AddAll(P, Add(h, P.expandMac(macs[0])), macs[1..])
  }

  /** `apply_hash_mutations_at_version` */
  function ApplyAt(P: Primitives, s: State, version: nat, ms: seq<HashMutation>): Result<State, StateError> {
    var c :- Collect(Collected(s.macs, [], []), ms);
    Ok(State(version, AddAll(P, SubtractAll(P, s.hash, c.subtract), c.add), c.macs))
  }

  /** `advance_with_hash_mutations` */
  function Advance(P: Primitives, s: State, ms: seq<HashMutation>): Result<State, StateError> {
    if s.version >= U64_MAX then Err(VersionOverflow) else ApplyAt(P, s, s.version + 1, ms)
  }

  // ----- Conservation --------------------------------------------------------

  /** The sum of the expansions of a list of MACs. */
  function SumOf(P: Primitives, macs: seq<Bytes>): Hash
    decreases |macs|
  {
    if macs == [] then ZERO else Add(P.expandMac(macs[0]), SumOf(P, macs[1..]))
  }

  /** The sum of the expansions of all stored value MACs. */
  function Total(P: Primitives, m: MacMap): Hash
    decreases |m|
  {
    if m == [] then ZERO else Add(P.expandMac(m[0].val), Total(P, m[1..]))
  }

  lemma {:induction false} SumAppend(P: Primitives, macs: seq<Bytes>, mac: Bytes)
    ensures SumOf(P, macs + [mac]) == Add(SumOf(P, macs), P.expandMac(mac))
    decreases |macs|
  {
    var e := P.expandMac(mac);
    if macs == [] {
      assert macs + [mac] == [mac];
      AddComm(e, ZERO);
    } else {
      assert (macs + [mac])[1..] == macs[1..] + [mac];
      SumAppend(P, macs[1..], mac);
      AddAssoc(P.expandMac(macs[0]), SumOf(P, macs[1..]), e);
    }
  }

  /** (x + y) + z == (x + z) + y */
  lemma AddSwap(x: Hash, y: Hash, z: Hash)
    ensures Add(Add(x, y), z) == Add(Add(x, z), y)
  {
    AddAssoc(x, y, z);
    AddAssoc(x, z, y);
    AddComm(y, z);
  }

  /** Subtracting one by one is subtracting the sum. */
  lemma {:induction false} SubtractAllIsSum(P: Primitives, h: Hash, macs: seq<Bytes>)
    ensures Add(SubtractAll(P, h, macs), SumOf(P, macs)) == h
    decreases |macs|
  {
    if macs == [] {
      AddZero(h);
    } else {
      var e := P.expandMac(macs[0]);
      var r := SubtractAll(P, Sub(h, e), macs[1..]);
      SubtractAllIsSum(P, Sub(h, e), macs[1..]);
      SubThenAdd(h, e);
      AddComm(e, SumOf(P, macs[1..]));
      AddAssoc(r, SumOf(P, macs[1..]), e);
    }
  }

  lemma {:induction false} AddAllIsSum(P: Primitives, h: Hash, macs: seq<Bytes>)
    ensures AddAll(P, h, macs) == Add(h, SumOf(P, macs))
    decreases |macs|
  {
    if macs == [] {
      AddZero(h);
    } else {
      var e := P.expandMac(macs[0]);
      AddAllIsSum(P, Add(h, e), macs[1..]);
      AddAssoc(h, e, SumOf(P, macs[1..]));
    }
  }

  /** The expansion of the MAC stored under `key`, or nothing. */
  function Stored(P: Primitives, m: MacMap, key: Bytes): Hash {
    if Get(m, key).Some? then P.expandMac(Get(m, key).value) else ZERO
  }

  lemma {:induction false} TotalInsert(P: Primitives, m: MacMap, key: Bytes, mac: Bytes)
    requires Sorted(m)
    ensures Add(Total(P, Insert(m, key, mac)), Stored(P, m, key)) == Add(Total(P, m), P.expandMac(mac))
    decreases |m|
  {
    var e := P.expandMac(mac);
    if m == [] || Less(key, m[0].key) {
      TotalInsertNew(P, m, key, mac);
    } else if key == m[0].key {
      TotalReplace(P, m, key, mac);
    } else {
      TotalInsert(P, m[1..], key, mac);
      var x := P.expandMac(m[0].val);
      AddAssoc(x, Total(P, Insert(m[1..], key, mac)), Stored(P, m[1..], key));
      AddAssoc(x, Total(P, m[1..]), e);
    }
  }

  lemma TotalInsertNew(P: Primitives, m: MacMap, key: Bytes, mac: Bytes)
    requires Sorted(m) && (m == [] || Less(key, m[0].key))
    ensures Add(Total(P, Insert(m, key, mac)), Stored(P, m, key)) == Add(Total(P, m), P.expandMac(mac))
  {
    var e := P.expandMac(mac);
    if m != [] {
      BelowTrans(key, m[0].key, m[1..]);
    }
    GetBelow(key, m);
    assert ([Entry(key, mac)] + m)[1..] == m;
    AddZero(Add(e, Total(P, m)));
    AddComm(e, Total(P, m));
  }

  lemma TotalReplace(P: Primitives, m: MacMap, key: Bytes, mac: Bytes)
    requires m != [] && key == m[0].key
    ensures Add(Total(P, Insert(m, key, mac)), Stored(P, m, key)) == Add(Total(P, m), P.expandMac(mac))
  {
    var e, x, t := P.expandMac(mac), P.expandMac(m[0].val), Total(P, m[1..]);
    LessIrreflexive(key);
    assert ([Entry(key, mac)] + m[1..])[1..] == m[1..];
    AddComm(e, t);
    AddSwap(t, e, x);
    AddComm(t, x);
  }

  lemma {:induction false} TotalRemove(P: Primitives, m: MacMap, key: Bytes)
    ensures Add(Total(P, SortedMap.Remove(m, key)), Stored(P, m, key)) == Total(P, m)
    decreases |m|
  {
    if m == [] {
      AddZero(ZERO);
    } else if key == m[0].key {
      AddComm(P.expandMac(m[0].val), Total(P, m[1..]));
    } else {
      TotalRemove(P, m[1..], key);
      AddAssoc(P.expandMac(m[0].val), Total(P, SortedMap.Remove(m[1..], key)), Stored(P, m[1..], key));
    }
  }

  /** What the maps gained and what the two lists hold differ by nothing. */
  predicate Balanced(P: Primitives, start: MacMap, c: Collected) {
    && Sorted(c.macs)
    && Add(Total(P, c.macs), SumOf(P, c.subtract)) == Add(Total(P, start), SumOf(P, c.add))
  }

  lemma SetBalances(P: Primitives, start: MacMap, c: Collected, key: Bytes, mac: Bytes)
    requires Balanced(P, start, c)
    ensures Balanced(P, start, Collected(Insert(c.macs, key, mac), WithPrevious(c, key), c.add + [mac]))
  {
    var e, st := P.expandMac(mac), Stored(P, c.macs, key);
    var t, u := Total(P, c.macs), Total(P, Insert(c.macs, key, mac));
    var sub, add := SumOf(P, c.subtract), SumOf(P, c.add);
    InsertSorted(c.macs, key, mac);
    TotalInsert(P, c.macs, key, mac);
    SumAppend(P, c.add, mac);
    calc {
      Add(Add(u, st), sub);
      Add(Add(t, e), sub);
      { AddSwap(t, e, sub); }
      Add(Add(Total(P, start), add), e);
      { AddAssoc(Total(P, start), add, e); }
      Add(Total(P, start), Add(add, e));
    }
    PreviousCounted(P, c, key, u);
  }

  /** Adding the stored expansion to a total is counting the replaced MAC among the subtracted. */
  lemma PreviousCounted(P: Primitives, c: Collected, key: Bytes, u: Hash)
    ensures Add(u, SumOf(P, WithPrevious(c, key))) == Add(Add(u, Stored(P, c.macs, key)), SumOf(P, c.subtract))
  {
    var previous, st, sub := Get(c.macs, key), Stored(P, c.macs, key), SumOf(P, c.subtract);
    if previous.Some? {
      SumAppend(P, c.subtract, previous.value);
      AddAssoc(u, sub, st);
      AddSwap(u, sub, st);
    } else {
      AddZero(u);
    }
  }

  lemma RemoveBalances(P: Primitives, start: MacMap, c: Collected, key: Bytes)
    requires Balanced(P, start, c) && Get(c.macs, key).Some?
    ensures Balanced(P, start, Collected(SortedMap.Remove(c.macs, key), c.subtract + [Get(c.macs, key).value], c.add))
  {
    var u := Total(P, SortedMap.Remove(c.macs, key));
    RemoveSorted(c.macs, key);
    TotalRemove(P, c.macs, key);
    PreviousCounted(P, c, key, u);
  }

  lemma CollectOneBalances(P: Primitives, start: MacMap, c: Collected, m: HashMutation)
    requires Balanced(P, start, c) && CollectOne(c, m).Ok?
    ensures Balanced(P, start, CollectOne(c, m).value)
  {
    var key := IndexKey(m.indexMac).value;
    match m.op {
      case Set => SetBalances(P, start, c, key, m.valueMac);
      case Remove =>
        if Get(c.macs, key).Some? {
          RemoveBalances(P, start, c, key);
        }
    }
  }

  lemma {:induction false} CollectBalances(P: Primitives, start: MacMap, c: Collected, ms: seq<HashMutation>)
    requires Balanced(P, start, c) && Collect(c, ms).Ok?
    ensures Balanced(P, start, Collect(c, ms).value)
    decreases |ms|
  {
    if ms != [] {
      CollectOneBalances(P, start, c, ms[0]);
      CollectBalances(P, start, CollectOne(c, ms[0]).value, ms[1..]);
    }
  }

  /**
   For every state, consistent or not, and every list of mutations, the hash minus
   the sum of all stored MACs is the same before and after.
   */
  lemma Conservation(P: Primitives, s: State, version: nat, ms: seq<HashMutation>)
    requires Sorted(s.macs) && ApplyAt(P, s, version, ms).Ok?
    ensures var t := ApplyAt(P, s, version, ms).value;
            Sorted(t.macs) && Sub(t.hash, Total(P, t.macs)) == Sub(s.hash, Total(P, s.macs))
  {
    var start := Collected(s.macs, [], []);
    CollectBalances(P, s.macs, start, ms);
    var c := Collect(start, ms).value;
    var r := SubtractAll(P, s.hash, c.subtract);
    SubtractAllIsSum(P, s.hash, c.subtract);
    AddAllIsSum(P, r, c.add);
    BalanceSheet(s.hash, r, Total(P, s.macs), Total(P, c.macs), SumOf(P, c.subtract), SumOf(P, c.add));
  }

  /** h = r + sub and u + sub = t + add give (r + add) - u = h - t. */
  lemma BalanceSheet(h: Hash, r: Hash, t: Hash, u: Hash, sub: Hash, add: Hash)
    requires Add(r, sub) == h && Add(u, sub) == Add(t, add)
    ensures Sub(Add(r, add), u) == Sub(h, t)
  {
    calc {
      Add(Add(r, add), t);
      { AddAssoc(r, add, t); AddComm(add, t); }
      Add(r, Add(u, sub));
      { AddComm(u, sub); AddAssoc(r, sub, u); }
      Add(h, u);
    }
    var d := Sub(h, t);
    calc {
      Add(Add(d, u), t);
      { AddSwap(d, u, t); }
      Add(Add(d, t), u);
      { SubThenAdd(h, t); }
      Add(h, u);
    }
    AddCancel(Add(d, u), Add(r, add), t);
    AddThenSub(d, u);
  }

  /** The hash is the sum of what the map holds. */
  predicate Consistent(P: Primitives, s: State) {
    Sorted(s.macs) && s.hash == Total(P, s.macs)
  }

  lemma ApplyConsistent(P: Primitives, s: State, version: nat, ms: seq<HashMutation>)
    requires Sorted(s.macs) && ApplyAt(P, s, version, ms).Ok?
    ensures Consistent(P, ApplyAt(P, s, version, ms).value) <==> Consistent(P, s)
  {
    Conservation(P, s, version, ms);
    var t := ApplyAt(P, s, version, ms).value;
    SameDifference(s.hash, Total(P, s.macs), t.hash, Total(P, t.macs));
  }

  lemma SameDifference(h: Hash, t: Hash, g: Hash, u: Hash)
    requires Sub(g, u) == Sub(h, t)
    ensures h == t <==> g == u
  {
    SubThenAdd(h, t);
    SubThenAdd(g, u);
    AddComm(ZERO, t);
    AddZero(t);
    AddComm(ZERO, u);
    AddZero(u);
    AddThenSub(ZERO, t);
    AddThenSub(ZERO, u);
  }

  // ----- What the map holds ---------------------------------------------------

  /** The last of the mutations that is about a key of the map. */
  function LastFor(ms: seq<HashMutation>, k: Bytes): (r: Option<HashMutation>)
    decreases |ms|
  {
    if ms == [] then None
    else if Base64.Encode(ms[|ms| - 1].indexMac) == k then Some(ms[|ms| - 1])
    else LastFor(ms[..|ms| - 1], k)
  }

  /** What is stored under a key that a last mutation is about, and otherwise what was. */
  function AfterLast(last: Option<HashMutation>, before: Option<Bytes>): Option<Bytes> {
    match last
    case None => before
    case Some(m) => if m.op.Set? then Some(m.valueMac) else None
  }

  lemma {:induction false} LastForCons(ms: seq<HashMutation>, k: Bytes)
    requires ms != []
    ensures LastFor(ms, k)
         == (if LastFor(ms[1..], k).Some? then LastFor(ms[1..], k)
             else if Base64.Encode(ms[0].indexMac) == k then Some(ms[0]) else None)
    decreases |ms|
  {
    if |ms| > 1 {
      LastForCons(ms[..|ms| - 1], k);
      assert ms[..|ms| - 1][1..] == ms[1..][..|ms[1..]| - 1];
    }
  }

  lemma CollectOneHolds(c: Collected, m: HashMutation, k: Bytes)
    requires Sorted(c.macs) && CollectOne(c, m).Ok?
    ensures Sorted(CollectOne(c, m).value.macs)
    ensures Get(CollectOne(c, m).value.macs, k)
         == AfterLast(if Base64.Encode(m.indexMac) == k then Some(m) else None, Get(c.macs, k))
  {
    var key := Base64.Encode(m.indexMac);
    InsertSorted(c.macs, key, m.valueMac);
    GetInsert(c.macs, key, m.valueMac, k);
    RemoveSorted(c.macs, key);
    GetRemove(c.macs, key, k);
  }

  lemma {:induction false} CollectHolds(c: Collected, ms: seq<HashMutation>, k: Bytes)
    requires Sorted(c.macs) && Collect(c, ms).Ok?
    ensures Get(Collect(c, ms).value.macs, k) == AfterLast(LastFor(ms, k), Get(c.macs, k))
    decreases |ms|
  {
    if ms != [] {
      CollectOneHolds(c, ms[0], k);
      CollectHolds(CollectOne(c, ms[0]).value, ms[1..], k);
      LastForCons(ms, k);
    }
  }

  predicate IndexSized(ms: seq<HashMutation>) {
    forall i :: 0 <= i < |ms| ==> |ms[i].indexMac| == MAC_LEN
  }

  lemma {:induction false} CollectIff(c: Collected, ms: seq<HashMutation>)
    ensures Collect(c, ms).Ok? <==> IndexSized(ms)
    ensures Collect(c, ms).Err? ==> Collect(c, ms).error == BadMacLength
    decreases |ms|
  {
    if ms != [] {
      if |ms[0].indexMac| == MAC_LEN {
        CollectIff(CollectOne(c, ms[0]).value, ms[1..]);
      }
      assert IndexSized(ms) <==> |ms[0].indexMac| == MAC_LEN && IndexSized(ms[1..]) by {
        assert forall i :: 0 < i < |ms| ==> ms[i] == ms[1..][i - 1];
        assert forall i :: 0 <= i < |ms[1..]| ==> ms[1..][i] == ms[i + 1];
      }
    }
  }

  /** `t` is `s` at another version, with every mutation done. */
  ghost predicate Mutated(s: State, version: nat, ms: seq<HashMutation>, t: State) {
    && t.version == version
    && forall k :: Get(t.macs, k) == AfterLast(LastFor(ms, k), Get(s.macs, k))
  }

  /**
   Applying a list of mutations fails exactly when an index MAC has a wrong length.
   Otherwise the last mutation about a key decides what is stored under it: a Set its
   own value MAC, a Remove nothing; a key that none is about keeps what it had.
   */
  lemma ApplyHolds(P: Primitives, s: State, version: nat, ms: seq<HashMutation>)
    requires Sorted(s.macs)
    ensures ApplyAt(P, s, version, ms).Ok? <==> IndexSized(ms)
    ensures ApplyAt(P, s, version, ms).Err? ==> ApplyAt(P, s, version, ms).error == BadMacLength
    ensures ApplyAt(P, s, version, ms).Ok? ==> Mutated(s, version, ms, ApplyAt(P, s, version, ms).value)
  {
    var start := Collected(s.macs, [], []);
    CollectIff(start, ms);
    if IndexSized(ms) {
      forall k ensures Get(Collect(start, ms).value.macs, k) == AfterLast(LastFor(ms, k), Get(s.macs, k)) {
        CollectHolds(start, ms, k);
      }
    }
  }

  // ----- Runs and snapshots --------------------------------------------------

  /** A chain of patches applied one after another. */
  function Run(P: Primitives, s: State, patches: seq<seq<HashMutation>>): Result<State, StateError>
    decreases |patches|
  {
    if patches == [] then Ok(s)
    else
      var next :- Advance(P, s, patches[0]);
      Run(P, next, patches[1..])
  }

  lemma EmptyConsistent(P: Primitives)
    ensures Consistent(P, EMPTY)
  {
  }

  /** Every chain keeps a consistent state consistent and counts its patches. */
  lemma {:induction false} RunConsistent(P: Primitives, s: State, patches: seq<seq<HashMutation>>)
    requires Sorted(s.macs) && Run(P, s, patches).Ok?
    ensures Sorted(Run(P, s, patches).value.macs)
    ensures Consistent(P, Run(P, s, patches).value) <==> Consistent(P, s)
    ensures Run(P, s, patches).value.version == s.version + |patches|
    decreases |patches|
  {
    if patches != [] {
      var next := Advance(P, s, patches[0]).value;
      Conservation(P, s, s.version + 1, patches[0]);
      ApplyConsistent(P, s, s.version + 1, patches[0]);
      RunConsistent(P, next, patches[1..]);
    }
  }

  /** The map entry that a Set record writes. */
  function AsEntry(m: HashMutation): Entry<Bytes> {
    Entry(Base64.Encode(m.indexMac), m.valueMac)
  }

  /** `ms` are Set records for exactly the entries of `m`, in any order and possibly repeated. */
  predicate Records(ms: seq<HashMutation>, m: MacMap) {
    && (forall i :: 0 <= i < |ms| ==> ms[i].op.Set? && |ms[i].indexMac| == MAC_LEN && AsEntry(ms[i]) in m)
    && (forall j :: 0 <= j < |m| ==> exists i :: 0 <= i < |ms| && AsEntry(ms[i]) == m[j])
  }

  /** Every entry of `a` is one that `m` has, and the keys of `done` are all there. */
  ghost predicate PartOf(a: MacMap, m: MacMap) {
    forall k :: Get(a, k).Some? ==> Get(a, k) == Get(m, k)
  }

  lemma EntryLookup(m: MacMap, e: Entry<Bytes>)
    requires Sorted(m) && e in m
    ensures Get(m, e.key) == Some(e.val)
  {
    var i :| 0 <= i < |m| && m[i] == e;
    GetEntry(m, i);
  }

  lemma SetIsPartOf(a: MacMap, m: MacMap, e: Entry<Bytes>)
    requires Sorted(a) && Sorted(m) && PartOf(a, m) && e in m
    ensures PartOf(Insert(a, e.key, e.val), m)
  {
    EntryLookup(m, e);
    forall k ensures Get(Insert(a, e.key, e.val), k).Some? ==> Get(Insert(a, e.key, e.val), k) == Get(m, k) {
      GetInsert(a, e.key, e.val, k);
    }
  }

  /** Collecting Set records of `m` fills a part of `m` that has all their keys. */
  lemma {:induction false} CollectRecords(c: Collected, ms: seq<HashMutation>, m: MacMap)
    requires Sorted(c.macs) && Sorted(m) && PartOf(c.macs, m)
    requires forall i :: 0 <= i < |ms| ==> ms[i].op.Set? && |ms[i].indexMac| == MAC_LEN && AsEntry(ms[i]) in m
    ensures Collect(c, ms).Ok?
    ensures var r := Collect(c, ms).value.macs;
            && Sorted(r) && PartOf(r, m)
            && (forall k :: Get(c.macs, k).Some? ==> Get(r, k).Some?)
            && (forall i :: 0 <= i < |ms| ==> Get(r, AsEntry(ms[i]).key).Some?)
    decreases |ms|
  {
    if ms != [] {
      var e := AsEntry(ms[0]);
      var next := CollectOne(c, ms[0]).value;
      InsertSorted(c.macs, e.key, e.val);
      SetIsPartOf(c.macs, m, e);
      forall k ensures (Get(c.macs, k).Some? ==> Get(next.macs, k).Some?) && Get(next.macs, e.key).Some? {
        GetInsert(c.macs, e.key, e.val, k);
        GetInsert(c.macs, e.key, e.val, e.key);
      }
      CollectRecords(next, ms[1..], m);
      forall i | 0 <= i < |ms| ensures Get(Collect(c, ms).value.macs, AsEntry(ms[i]).key).Some? {
        if i > 0 {
          assert ms[i] == ms[1..][i - 1];
        }
      }
    }
  }

  lemma CollectAllRecords(ms: seq<HashMutation>, m: MacMap)
    requires Sorted(m) && Records(ms, m)
    ensures Collect(Collected([], [], []), ms).Ok?
    ensures Collect(Collected([], [], []), ms).value.macs == m
  {
    CollectRecords(Collected([], [], []), ms, m);
    var r := Collect(Collected([], [], []), ms).value.macs;
    forall k ensures Get(r, k) == Get(m, k) {
      if Get(m, k).Some? {
        GetFinds(m, k);
        var j :| 0 <= j < |m| && m[j] == Entry(k, Get(m, k).value);
        var i :| 0 <= i < |ms| && AsEntry(ms[i]) == m[j];
        assert Get(r, AsEntry(ms[i]).key).Some?;
      }
    }
    Extensional(r, m);
  }

  /**
   A snapshot is the replay: rebuilding from the final map's entries as Set
   records, in any order, at the final version gives the very state that a chain
   of patches from the empty state arrived at.
   */
  lemma SnapshotIsReplay(P: Primitives, patches: seq<seq<HashMutation>>, ms: seq<HashMutation>)
    requires Run(P, EMPTY, patches).Ok? && Records(ms, Run(P, EMPTY, patches).value.macs)
    ensures ApplyAt(P, EMPTY, |patches|, ms) == Run(P, EMPTY, patches)
  {
    var s := Run(P, EMPTY, patches).value;
    EmptyConsistent(P);
    RunConsistent(P, EMPTY, patches);
    CollectAllRecords(ms, s.macs);
    ApplyConsistent(P, EMPTY, |patches|, ms);
  }

  // ----- Stored entries ------------------------------------------------------

  /** An entry as the constructors make it: both MACs of the right length. */
  predicate ValidEntry(e: Entry<Bytes>) {
    && Base64.Decode(e.key).Some?
    && |Base64.Decode(e.key).value| == MAC_LEN
    && Base64.Encode(Base64.Decode(e.key).value) == e.key
    && |e.val| == MAC_LEN
  }

  predicate ValidMacs(m: MacMap) {
    Sorted(m) && forall i :: 0 <= i < |m| ==> ValidEntry(m[i])
  }

  predicate ValidMutations(ms: seq<HashMutation>) {
    forall i :: 0 <= i < |ms| ==> |ms[i].indexMac| == MAC_LEN && |ms[i].valueMac| == MAC_LEN
  }

  lemma {:induction false} InsertValid(m: MacMap, e: Entry<Bytes>)
    requires ValidMacs(m) && ValidEntry(e)
    ensures ValidMacs(Insert(m, e.key, e.val))
    decreases |m|
  {
    InsertSorted(m, e.key, e.val);
    if m != [] && !Less(e.key, m[0].key) && e.key != m[0].key {
      InsertValid(m[1..], e);
    }
  }

  lemma {:induction false} RemoveValid(m: MacMap, key: Bytes)
    requires ValidMacs(m)
    ensures ValidMacs(SortedMap.Remove(m, key))
    decreases |m|
  {
    RemoveSorted(m, key);
    if m != [] && key != m[0].key {
      RemoveValid(m[1..], key);
    }
  }

  lemma EntryValid(indexMac: Bytes, valueMac: Bytes)
    requires |indexMac| == |valueMac| == MAC_LEN
    ensures ValidEntry(Entry(Base64.Encode(indexMac), valueMac))
  {
    Base64.RoundTrip(indexMac);
  }

  lemma {:induction false} CollectValid(c: Collected, ms: seq<HashMutation>)
    requires ValidMacs(c.macs) && ValidMutations(ms)
    ensures Collect(c, ms).Ok? && ValidMacs(Collect(c, ms).value.macs)
    decreases |ms|
  {
    if ms != [] {
      var m := ms[0];
      EntryValid(m.indexMac, m.valueMac);
      InsertValid(c.macs, Entry(Base64.Encode(m.indexMac), m.valueMac));
      RemoveValid(c.macs, Base64.Encode(m.indexMac));
      CollectValid(CollectOne(c, m).value, ms[1..]);
    }
  }

  /** Applying well-formed mutations to a state never fails and keeps its entries storable. */
  lemma ApplyValid(P: Primitives, s: State, version: nat, ms: seq<HashMutation>)
    requires ValidMacs(s.macs) && ValidMutations(ms)
    ensures ApplyAt(P, s, version, ms).Ok? && ValidMacs(ApplyAt(P, s, version, ms).value.macs)
  {
    CollectValid(Collected(s.macs, [], []), ms);
  }

  /** The Set records of a map, in its own order. */
  function RecordsOf(m: MacMap): (ms: seq<HashMutation>)
    requires forall i :: 0 <= i < |m| ==> ValidEntry(m[i])
    ensures |ms| == |m|
    ensures forall i :: 0 <= i < |m| ==>
              ms[i].op.Set? && |ms[i].indexMac| == MAC_LEN && AsEntry(ms[i]) == m[i]
    decreases |m|
  {
    if m == [] then [] else
      assert ValidEntry(m[0]);
      [HashMutation(Set, Base64.Decode(m[0].key).value, m[0].val)] + RecordsOf(m[1..])
  }

  /** Every storable map has such records, so a snapshot can always be taken. */
  lemma RecordsExist(m: MacMap)
    requires ValidMacs(m)
    ensures Records(RecordsOf(m), m)
  {
    var ms := RecordsOf(m);
    forall j | 0 <= j < |m| ensures exists i :: 0 <= i < |ms| && AsEntry(ms[i]) == m[j] {
      assert AsEntry(ms[j]) == m[j];
    }
  }

  // ----- The loop ------------------------------------------------------------

  /** `apply_hash_mutations_at_version`: one pass over the mutations, then the hash. */
  method ApplyHashMutations(P: Primitives, s: State, version: nat, mutations: seq<HashMutation>)
    returns (r: Result<State, StateError>)
    ensures r == ApplyAt(P, s, version, mutations)
    ensures Sorted(s.macs) ==> (r.Ok? <==> IndexSized(mutations))
    ensures Sorted(s.macs) && r.Ok? ==> Mutated(s, version, mutations, r.value)
    ensures Sorted(s.macs) && r.Ok? ==> Sub(r.value.hash, Total(P, r.value.macs)) == Sub(s.hash, Total(P, s.macs))
  {
    if Sorted(s.macs) {
      ApplyHolds(P, s, version, mutations);
      if IndexSized(mutations) {
        Conservation(P, s, version, mutations);
      }
    }
    var macs := s.macs;
    var add: seq<Bytes> := [];
    var subtract: seq<Bytes> := [];
    for i := 0 to |mutations|
      invariant Collect(Collected(s.macs, [], []), mutations)
             == Collect(Collected(macs, subtract, add), mutations[i..])
    {
      var m := mutations[i];
      assert mutations[i..][1..] == mutations[i + 1..];
      if |m.indexMac| != MAC_LEN {
        return Err(BadMacLength);
      }
      var key := Base64.Encode(m.indexMac);
      var previous := Get(macs, key);
      match m.op {
        case Set =>
          macs := Insert(macs, key, m.valueMac);
          if previous.Some? {
            subtract := subtract + [previous.value];
          }
          add := add + [m.valueMac];
        case Remove =>
          if previous.Some? {
            macs := SortedMap.Remove(macs, key);
            subtract := subtract + [previous.value];
          }
      }
    }
    var hash := SubtractThenAdd(P, s.hash, subtract, add);
    return Ok(State(version, hash, macs));
  }

  /** `app_state_lt_hash_subtract_then_add` */
  method SubtractThenAdd(P: Primitives, base: Hash, subtract: seq<Bytes>, add: seq<Bytes>) returns (h: Hash)
    ensures h == AddAll(P, SubtractAll(P, base, subtract), add)
  {
    h := base;
    for i := 0 to |subtract|
      invariant SubtractAll(P, base, subtract) == SubtractAll(P, h, subtract[i..])
    {
      assert subtract[i..][1..] == subtract[i + 1..];
      h := Sub(h, P.expandMac(subtract[i]));
    }
    ghost var middle := h;
    for i := 0 to |add|
      invariant AddAll(P, middle, add) == AddAll(P, h, add[i..])
    {
      assert add[i..][1..] == add[i + 1..];
      h := Add(h, P.expandMac(add[i]));
    }
  }
}
