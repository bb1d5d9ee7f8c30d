/**
 What an app-state patch or snapshot leaves in the index map of its collection
 (crates/wa-core/src/app_state.rs), told from the mutations it carries.
 */
module PatchContents {
  import opened Prelude
  import opened SortedMap
  import opened AppCrypto
  import opened PatchState
  import opened PatchProtocol
  import opened PatchTheorems

  /** `value_mac_for_index_mac` */
  function ValueMacFor(s: State, indexMac: Bytes): Option<Bytes> {
    Get(s.macs, Base64.Encode(indexMac))
  }

  /** Mutation `i` is the last one about its index. */
  predicate IsLast(ms: seq<HashMutation>, i: nat)
    requires i < |ms|
  {
    forall j :: i < j < |ms| ==> ms[j].indexMac != ms[i].indexMac
  }

  lemma {:induction false} LastForIs(ms: seq<HashMutation>, i: nat)
    requires i < |ms| && IsLast(ms, i)
    ensures LastFor(ms, Base64.Encode(ms[i].indexMac)) == Some(ms[i])
    decreases |ms|
  {
    var last := |ms| - 1;
    if i < last {
      if Base64.Encode(ms[last].indexMac) == Base64.Encode(ms[i].indexMac) {
        Base64.EncodeInjective(ms[last].indexMac, ms[i].indexMac);
      }
      LastForIs(ms[..last], i);
    }
  }

  lemma {:induction false} LastForNone(ms: seq<HashMutation>, indexMac: Bytes)
    requires forall i :: 0 <= i < |ms| ==> ms[i].indexMac != indexMac
    ensures LastFor(ms, Base64.Encode(indexMac)) == None
    decreases |ms|
  {
    if ms != [] {
      var last := |ms| - 1;
      if Base64.Encode(ms[last].indexMac) == Base64.Encode(indexMac) {
        Base64.EncodeInjective(ms[last].indexMac, indexMac);
      }
      LastForNone(ms[..last], indexMac);
    }
  }

  /** Every mutation that is the last about its index has been done, and other indexes are as before. */
  ghost predicate Done(s: State, ms: seq<HashMutation>, t: State) {
    && (forall i :: 0 <= i < |ms| && IsLast(ms, i) ==>
          ValueMacFor(t, ms[i].indexMac) == (if ms[i].op.Set? then Some(ms[i].valueMac) else None))
    && (forall indexMac :: (forall i :: 0 <= i < |ms| ==> ms[i].indexMac != indexMac) ==>
          ValueMacFor(t, indexMac) == ValueMacFor(s, indexMac))
  }

  lemma MutatedDone(s: State, version: nat, ms: seq<HashMutation>, t: State)
    requires Mutated(s, version, ms, t)
    ensures Done(s, ms, t)
  {
    forall i | 0 <= i < |ms| && IsLast(ms, i)
      ensures ValueMacFor(t, ms[i].indexMac) == (if ms[i].op.Set? then Some(ms[i].valueMac) else None)
    {
      LastForIs(ms, i);
    }
    forall indexMac | forall i :: 0 <= i < |ms| ==> ms[i].indexMac != indexMac
      ensures ValueMacFor(t, indexMac) == ValueMacFor(s, indexMac)
    {
      LastForNone(ms, indexMac);
    }
  }

  // ----- Patches and snapshots that are accepted --------------------------------

  /** Record `i` is the last one about its index. */
  predicate LastRead(ds: seq<Decoded>, i: nat)
    requires i < |ds|
  {
    forall j :: i < j < |ds| ==> ds[j].indexMac != ds[i].indexMac
  }

  /** The same, of the records that a patch or snapshot was read as. */
  ghost predicate DoneAsRead(s: State, ds: seq<Decoded>, t: State) {
    && (forall i :: 0 <= i < |ds| && LastRead(ds, i) ==>
          ValueMacFor(t, ds[i].indexMac) == (if ds[i].op.Set? then Some(ds[i].valueMac) else None))
    && (forall indexMac :: (forall i :: 0 <= i < |ds| ==> ds[i].indexMac != indexMac) ==>
          ValueMacFor(t, indexMac) == ValueMacFor(s, indexMac))
  }

  lemma ReadDone(s: State, ds: seq<Decoded>, t: State)
    requires Done(s, AsHashMutations(ds), t)
    ensures DoneAsRead(s, ds, t)
  {
    var ms := AsHashMutations(ds);
    forall i | 0 <= i < |ds| && LastRead(ds, i)
      ensures ValueMacFor(t, ds[i].indexMac) == (if ds[i].op.Set? then Some(ds[i].valueMac) else None)
    {
      assert ms[i] == AsHashMutation(ds[i]) && IsLast(ms, i);
    }
    forall indexMac | forall i :: 0 <= i < |ds| ==> ds[i].indexMac != indexMac
      ensures ValueMacFor(t, indexMac) == ValueMacFor(s, indexMac)
    {
      assert forall i :: 0 <= i < |ms| ==> ms[i].indexMac != indexMac;
    }
  }

  /** The next state of an accepted patch: the last record about an index decides, the rest of the map is as it was. */
  lemma AcceptedMap(E: Env, c: Collection, prev: State, p: Patch, keyData: Bytes)
    requires Sorted(prev.macs) && DecodePatch(E, c, prev, p, keyData).Ok?
    ensures var d := DecodePatch(E, c, prev, p, keyData).value;
            |d.mutations| == |p.mutations| && DoneAsRead(prev, d.mutations, d.next)
  {
    AcceptedParts(E, c, prev, p, keyData);
    var d := DecodePatch(E, c, prev, p, keyData).value;
    DecodedLength(E, p.mutations, DeriveKeys(E.crypto, keyData).value);
    ApplyHolds(E.crypto, prev, prev.version + 1, AsHashMutations(d.mutations));
    MutatedDone(prev, prev.version + 1, AsHashMutations(d.mutations), d.next);
    ReadDone(prev, d.mutations, d.next);
  }

  lemma {:induction false} DecodedLength(E: Env, ms: seq<Mutation>, keys: Keys)
    requires DecodeMutations(E, ms, keys).Ok?
    ensures |DecodeMutations(E, ms, keys).value| == |ms|
    ensures forall i :: 0 <= i < |ms| ==> DecodeMutation(E, ms[i], keys) == Ok(DecodeMutations(E, ms, keys).value[i])
    decreases |ms|
  {
    if ms != [] {
      DecodedLength(E, ms[1..], keys);
    }
  }

  lemma {:induction false} RecordsSet(E: Env, rs: seq<Record>, keys: Keys)
    requires DecodeRecords(E, rs, keys).Ok?
    ensures |DecodeRecords(E, rs, keys).value| == |rs|
    ensures forall i :: 0 <= i < |rs| ==> DecodeRecords(E, rs, keys).value[i].op.Set?
    decreases |rs|
  {
    if rs != [] {
      RecordAuthentic(E, Set, rs[0], keys, DecodeRecord(E, Set, rs[0], keys).value);
      RecordsSet(E, rs[1..], keys);
    }
  }

  /** An accepted snapshot holds the last value MAC of each index it has a record for, and no other index. */
  lemma SnapshotMap(E: Env, c: Collection, s: Snapshot, keyData: Bytes)
    requires DecodeSnapshot(E, c, s, keyData).Ok?
    ensures var d := DecodeSnapshot(E, c, s, keyData).value;
            && |d.mutations| == |s.records|
            && (forall i :: 0 <= i < |d.mutations| && LastRead(d.mutations, i) ==>
                  ValueMacFor(d.state, d.mutations[i].indexMac) == Some(d.mutations[i].valueMac))
            && (forall indexMac :: (forall i :: 0 <= i < |d.mutations| ==> d.mutations[i].indexMac != indexMac) ==>
                  ValueMacFor(d.state, indexMac) == None)
  {
    var d := DecodeSnapshot(E, c, s, keyData).value;
    SnapshotExactly(E, c, s, keyData, d);
    RecordsSet(E, s.records, DeriveKeys(E.crypto, keyData).value);
    ApplyHolds(E.crypto, EMPTY, d.state.version, AsHashMutations(d.mutations));
    MutatedDone(EMPTY, d.state.version, AsHashMutations(d.mutations), d.state);
    ReadDone(EMPTY, d.mutations, d.state);
  }

  // ----- Bundles that are built ---------------------------------------------------

  /** Mutation `i` is the last one about its index. */
  predicate LastSent(es: seq<Encrypted>, i: nat)
    requires i < |es|
  {
    forall j :: i < j < |es| ==> es[j].indexMac != es[i].indexMac
  }

  lemma {:induction false} SentMutations(es: seq<Encrypted>)
    requires HashMutationsOf(es).Ok?
    ensures var ms := HashMutationsOf(es).value;
            && |ms| == |es|
            && forall i :: 0 <= i < |es| ==>
                 && ms[i].indexMac == es[i].indexMac && ms[i].valueMac == es[i].valueMac
                 && es[i].mutation.operation == Some(if ms[i].op.Set? then 0 else 1)
                 && |es[i].indexMac| == 32 && |es[i].valueMac| == 32
    decreases |es|
  {
    if es != [] {
      SentMutations(es[1..]);
    }
  }

  /**
   The state that a bundle leads to, whatever the mutations it was built from: the last
   one about an index decides, operation 0 storing its value MAC and operation 1
   removing what was there; the rest of the map is as it was.
   */
  lemma BundleMap(E: Env, c: Collection, prev: State, keyId: Bytes, keyData: Bytes, es: seq<Encrypted>)
    requires Sorted(prev.macs) && BuildBundle(E, c, prev, keyId, keyData, es).Ok?
    ensures var next := BuildBundle(E, c, prev, keyId, keyData, es).value.next;
            && (forall i :: 0 <= i < |es| ==> es[i].mutation.operation == Some(0) || es[i].mutation.operation == Some(1))
            && (forall i :: 0 <= i < |es| && LastSent(es, i) ==>
                  ValueMacFor(next, es[i].indexMac)
                  == (if es[i].mutation.operation == Some(0) then Some(es[i].valueMac) else None))
            && (forall indexMac :: (forall i :: 0 <= i < |es| ==> es[i].indexMac != indexMac) ==>
                  ValueMacFor(next, indexMac) == ValueMacFor(prev, indexMac))
  {
    var next := BuildBundle(E, c, prev, keyId, keyData, es).value.next;
    var ms := HashMutationsOf(es).value;
    SentMutations(es);
    ApplyHolds(E.crypto, prev, prev.version + 1, ms);
    MutatedDone(prev, prev.version + 1, ms, next);
    forall i | 0 <= i < |es| && LastSent(es, i)
      ensures ValueMacFor(next, es[i].indexMac)
           == (if es[i].mutation.operation == Some(0) then Some(es[i].valueMac) else None)
    {
      assert IsLast(ms, i);
    }
    forall indexMac | forall i :: 0 <= i < |es| ==> es[i].indexMac != indexMac
      ensures ValueMacFor(next, indexMac) == ValueMacFor(prev, indexMac)
    {
      assert forall i :: 0 <= i < |ms| ==> ms[i].indexMac != indexMac;
    }
  }
}
