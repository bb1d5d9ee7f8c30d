/** What building and checking app-state patches guarantees (crates/wa-core/src/app_state.rs). */
module PatchTheorems {
  import opened Prelude
  import opened BigEndian
  import opened LtHash
  import opened AppCrypto
  import opened PatchState
  import opened Events
  import opened PatchProtocol
  import opened SortedMap

  // ----- One record ----------------------------------------------------------

  /** The mutation a remote device should read out of a chat patch. */
  function Expected(E: Env, p: ChatPatch, keyId: Bytes, e: Encrypted): Decoded
    requires BuildAction(E, p).Ok?
  {
    Decoded(p.op, keyId, e.indexMac, e.valueMac, e.encryptedValue, p.index, BuildAction(E, p).value)
  }

  /** What an encrypted patch is made of. */
  lemma EncryptedParts(E: Env, p: ChatPatch, keyId: Bytes, keyData: Bytes, iv: Bytes)
    requires EncryptPatch(E, p, keyId, keyData, iv).Ok?
    ensures var e := EncryptPatch(E, p, keyId, keyData, iv).value;
            && keyId != []
            && BuildAction(E, p).Ok?
            && DeriveKeys(E.crypto, keyData).Ok?
            && var keys := DeriveKeys(E.crypto, keyData).value;
            && EncryptValue(E.crypto, E.formats.encodeAction(BuildAction(E, p).value), keys, iv) == Ok(e.encryptedValue)
            && ValueMac(E.crypto, p.op, e.encryptedValue, keyId, keys) == Ok(e.valueMac)
            && e.indexMac == IndexMac(E.crypto, E.formats.encodeIndex(p.index), keys)
            && e.mutation == Mutation(Some(ProtoValue(p.op)),
                                      Some(Record(Some(e.indexMac), Some(e.encryptedValue + e.valueMac), Some(keyId))))
  {
  }

  lemma RecordSplits(sealed: Bytes, mac: Bytes)
    requires |mac| == MAC_LEN
    ensures var blob := sealed + mac;
            && |blob| - MAC_LEN == |sealed|
            && blob[..|blob| - MAC_LEN] == sealed
            && blob[|blob| - MAC_LEN..] == mac
  {
    DropPrefix(sealed, mac);
  }

  lemma OpenSealed(E: Env, op: Operation, indexMac: Bytes, keyId: Bytes, sealed: Bytes, valueMac: Bytes, keys: Keys,
                   action: ActionData, index: seq<Bytes>)
    requires ValueMac(E.crypto, op, sealed, keyId, keys) == Ok(valueMac)
    requires DecryptValue(E.crypto, sealed, keys) == Ok(E.formats.encodeAction(action))
    requires E.formats.decodeAction(E.formats.encodeAction(action)) == Some(action)
    requires action.index.Some? && E.formats.decodeIndex(action.index.value) == Some(index)
    requires indexMac == IndexMac(E.crypto, action.index.value, keys)
    ensures OpenRecord(E, op, indexMac, keyId, sealed, valueMac, keys)
         == Ok(Decoded(op, keyId, indexMac, valueMac, sealed, index, action))
  {
    ConstantTimeEqIsEquality(valueMac, valueMac);
    ConstantTimeEqIsEquality(indexMac, indexMac);
  }

  /** Decrypting under the same key reads back exactly what was encrypted. */
  lemma RecordRoundTrip(E: Env, p: ChatPatch, keyId: Bytes, keyData: Bytes, iv: Bytes)
    requires Sound(E) && EncryptPatch(E, p, keyId, keyData, iv).Ok?
    ensures DeriveKeys(E.crypto, keyData).Ok? && BuildAction(E, p).Ok?
    ensures var e := EncryptPatch(E, p, keyId, keyData, iv).value;
            DecodeMutation(E, e.mutation, DeriveKeys(E.crypto, keyData).value) == Ok(Expected(E, p, keyId, e))
  {
    EncryptedParts(E, p, keyId, keyData, iv);
    var e := EncryptPatch(E, p, keyId, keyData, iv).value;
    var keys := DeriveKeys(E.crypto, keyData).value;
    var action := BuildAction(E, p).value;
    DecryptEncrypt(E.crypto, E.formats.encodeAction(action), keys, iv);
    RecordSplits(e.encryptedValue, e.valueMac);
    OpenSealed(E, p.op, e.indexMac, keyId, e.encryptedValue, e.valueMac, keys, action, p.index);
  }

  // ----- A bundle ------------------------------------------------------------

  /** `es` are the patches `ps`, each encrypted under one key with its own initialisation vector. */
  ghost predicate EncryptedUnder(E: Env, ps: seq<ChatPatch>, ivs: seq<Bytes>, keyId: Bytes, keyData: Bytes,
                                 es: seq<Encrypted>)
  {
    && |ps| == |ivs| == |es|
    && forall i :: 0 <= i < |es| ==> EncryptPatch(E, ps[i], keyId, keyData, ivs[i]) == Ok(es[i])
  }

  /** `ds` are what `ps` should be read back as, in order. */
  ghost predicate ReadBack(E: Env, ps: seq<ChatPatch>, keyId: Bytes, es: seq<Encrypted>, ds: seq<Decoded>) {
    && |ds| == |es| == |ps|
    && forall i :: 0 <= i < |ps| ==> BuildAction(E, ps[i]).Ok? && ds[i] == Expected(E, ps[i], keyId, es[i])
  }

  lemma {:induction false} MutationsReadBack(E: Env, ps: seq<ChatPatch>, ivs: seq<Bytes>, keyId: Bytes, keyData: Bytes,
                                             es: seq<Encrypted>, keys: Keys)
    requires Sound(E) && EncryptedUnder(E, ps, ivs, keyId, keyData, es) && DeriveKeys(E.crypto, keyData) == Ok(keys)
    ensures DecodeMutations(E, MutationsOf(es), keys).Ok?
    ensures ReadBack(E, ps, keyId, es, DecodeMutations(E, MutationsOf(es), keys).value)
    decreases |es|
  {
    if es != [] {
      RecordRoundTrip(E, ps[0], keyId, keyData, ivs[0]);
      MutationsReadBack(E, ps[1..], ivs[1..], keyId, keyData, es[1..], keys);
      assert MutationsOf(es)[1..] == MutationsOf(es[1..]);
      ReadBackStep(E, ps, keyId, es, DecodeMutations(E, MutationsOf(es[1..]), keys).value);
    }
  }

  lemma ReadBackStep(E: Env, ps: seq<ChatPatch>, keyId: Bytes, es: seq<Encrypted>, rest: seq<Decoded>)
    requires ps != [] && es != [] && BuildAction(E, ps[0]).Ok?
    requires ReadBack(E, ps[1..], keyId, es[1..], rest)
    ensures ReadBack(E, ps, keyId, es, [Expected(E, ps[0], keyId, es[0])] + rest)
  {
    var ds := [Expected(E, ps[0], keyId, es[0])] + rest;
    forall i | 0 <= i < |ps| ensures BuildAction(E, ps[i]).Ok? && ds[i] == Expected(E, ps[i], keyId, es[i]) {
      if i > 0 {
        assert ps[i] == ps[1..][i - 1] && es[i] == es[1..][i - 1];
      }
    }
  }

  /** The hash mutation of a record that was read. */
  function AsHashMutation(d: Decoded): HashMutation {
    HashMutation(d.op, d.indexMac, d.valueMac)
  }

  function AsHashMutations(ds: seq<Decoded>): (ms: seq<HashMutation>)
    ensures |ms| == |ds| && forall i :: 0 <= i < |ds| ==> ms[i] == AsHashMutation(ds[i])
  {
    if ds == [] then [] else [AsHashMutation(ds[0])] + AsHashMutations(ds[1..])
  }

  predicate MacSized(d: Decoded) {
    |d.indexMac| == MAC_LEN && |d.valueMac| == MAC_LEN
  }

  predicate AllMacSized(ds: seq<Decoded>) {
    forall i :: 0 <= i < |ds| ==> MacSized(ds[i])
  }

  lemma {:induction false} DecodedHashMutationsIff(ds: seq<Decoded>)
    ensures DecodedHashMutations(ds).Ok? <==> AllMacSized(ds)
    ensures DecodedHashMutations(ds).Ok? ==> DecodedHashMutations(ds).value == AsHashMutations(ds)
    decreases |ds|
  {
    if ds != [] {
      DecodedHashMutationsIff(ds[1..]);
      forall i | 0 <= i < |ds| && AllMacSized(ds[1..]) && MacSized(ds[0]) ensures MacSized(ds[i]) {
        assert i == 0 || ds[i] == ds[1..][i - 1];
      }
    }
  }

  /** Both ends compute the same hash mutations, check the same key id and sum the same MACs. */
  ghost predicate SameInputs(es: seq<Encrypted>, keyId: Bytes, ds: seq<Decoded>) {
    && CheckKeyIds(es, keyId) == Ok(())
    && HashMutationsOf(es) == Ok(AsHashMutations(ds))
    && DecodedHashMutations(ds) == Ok(AsHashMutations(ds))
    && ValueMacsOf(es) == DecodedMacs(ds)
    && AllMacs(DecodedMacs(ds))
    && SameKeyId(ds, keyId)
  }

  lemma SameInput(E: Env, p: ChatPatch, keyId: Bytes, keyData: Bytes, iv: Bytes, e: Encrypted)
    requires EncryptPatch(E, p, keyId, keyData, iv) == Ok(e)
    ensures BuildAction(E, p).Ok? && CheckKeyId(e.mutation, keyId) == Ok(())
    ensures HashMutationOf(e) == Ok(AsHashMutation(Expected(E, p, keyId, e)))
    ensures MacSized(Expected(E, p, keyId, e))
  {
    EncryptedParts(E, p, keyId, keyData, iv);
  }

  lemma {:induction false} InputsAgree(E: Env, ps: seq<ChatPatch>, ivs: seq<Bytes>, keyId: Bytes, keyData: Bytes,
                                       es: seq<Encrypted>, ds: seq<Decoded>)
    requires EncryptedUnder(E, ps, ivs, keyId, keyData, es) && ReadBack(E, ps, keyId, es, ds)
    ensures SameInputs(es, keyId, ds)
    decreases |es|
  {
    if es == [] {
      assert ds == [];
    } else {
      SameInput(E, ps[0], keyId, keyData, ivs[0], es[0]);
      InputsAgree(E, ps[1..], ivs[1..], keyId, keyData, es[1..], ds[1..]);
      SameInputsStep(es, keyId, ds);
    }
  }

  lemma SameInputsStep(es: seq<Encrypted>, keyId: Bytes, ds: seq<Decoded>)
    requires es != [] && ds != [] && SameInputs(es[1..], keyId, ds[1..])
    requires CheckKeyId(es[0].mutation, keyId) == Ok(()) && HashMutationOf(es[0]) == Ok(AsHashMutation(ds[0]))
    requires MacSized(ds[0]) && ds[0].valueMac == es[0].valueMac && ds[0].keyId == keyId
    ensures SameInputs(es, keyId, ds)
  {
    forall i | 0 <= i < |ds| ensures ds[i].keyId == keyId {
      assert i == 0 || ds[i] == ds[1..][i - 1];
    }
    var macs := DecodedMacs(ds);
    forall i | 0 <= i < |macs| ensures |macs[i]| == MAC_LEN {
      assert i == 0 || macs[i] == DecodedMacs(ds[1..])[i - 1];
    }
  }

  lemma {:induction false} SameLength(es: seq<Encrypted>)
    ensures |MutationsOf(es)| == |es|
    decreases |es|
  {
    if es != [] {
      SameLength(es[1..]);
    }
  }

  /** A bundle, its patch and the state after it, once every step of building succeeds. */
  lemma BundleParts(E: Env, c: Collection, prev: State, keyId: Bytes, keyData: Bytes, es: seq<Encrypted>,
                    ms: seq<HashMutation>, keys: Keys)
    requires keyId != [] && es != [] && CheckKeyIds(es, keyId) == Ok(()) && HashMutationsOf(es) == Ok(ms)
    requires AllMacs(ValueMacsOf(es)) && DeriveKeys(E.crypto, keyData) == Ok(keys)
    ensures BuildBundle(E, c, prev, keyId, keyData, es).Ok? <==> Advance(E.crypto, prev, ms).Ok?
    ensures BuildBundle(E, c, prev, keyId, keyData, es).Ok? ==>
              var b := BuildBundle(E, c, prev, keyId, keyData, es).value;
              && Advance(E.crypto, prev, ms) == Ok(b.next)
              && b.collection == c && b.previousVersion == prev.version
              && exists sm: Bytes, pm: Bytes ::
                   && SnapshotMac(E.crypto, b.next.hash, b.next.version, CollectionName(c), keys) == Ok(sm)
                   && PatchMac(E.crypto, sm, ValueMacsOf(es), b.next.version, CollectionName(c), keys) == Ok(pm)
                   && b.patch == Patch(Some(b.next.version), MutationsOf(es), Some(sm), Some(pm), Some(keyId))
  {
    NamesDiffer(c, c);
    if Advance(E.crypto, prev, ms).Ok? {
      var next := Advance(E.crypto, prev, ms).value;
      var sm: Bytes := SnapshotMac(E.crypto, next.hash, next.version, CollectionName(c), keys).value;
      var pm: Bytes := PatchMac(E.crypto, sm, ValueMacsOf(es), next.version, CollectionName(c), keys).value;
      assert BuildBundle(E, c, prev, keyId, keyData, es)
          == Ok(Bundle(c, prev.version, next, Patch(Some(next.version), MutationsOf(es), Some(sm), Some(pm), Some(keyId))));
    }
  }

  lemma VerifyAccepts(E: Env, c: Collection, prev: State, next: State, sm: Bytes, pm: Bytes, ds: seq<Decoded>, keys: Keys)
    requires DecodedHashMutations(ds) == Ok(AsHashMutations(ds))
    requires Advance(E.crypto, prev, AsHashMutations(ds)) == Ok(next)
    requires SnapshotMac(E.crypto, next.hash, next.version, CollectionName(c), keys) == Ok(sm)
    requires PatchMac(E.crypto, sm, DecodedMacs(ds), next.version, CollectionName(c), keys) == Ok(pm)
    ensures VerifyPatch(E, c, prev, next.version, sm, pm, ds, keys) == Ok(next)
  {
    ConstantTimeEqIsEquality(pm, pm);
    ConstantTimeEqIsEquality(sm, sm);
  }

  lemma DecodeAccepts(E: Env, c: Collection, prev: State, p: Patch, keyData: Bytes, next: State, sm: Bytes, pm: Bytes,
                      keyId: Bytes, ds: seq<Decoded>, keys: Keys)
    requires p == Patch(Some(next.version), p.mutations, Some(sm), Some(pm), Some(keyId))
    requires p.mutations != [] && keyId != [] && prev.version < U64_MAX && next.version == prev.version + 1
    requires |sm| == MAC_LEN && |pm| == MAC_LEN && DeriveKeys(E.crypto, keyData) == Ok(keys)
    requires DecodeMutations(E, p.mutations, keys) == Ok(ds) && SameKeyId(ds, keyId)
    requires VerifyPatch(E, c, prev, next.version, sm, pm, ds, keys) == Ok(next)
    ensures DecodePatch(E, c, prev, p, keyData) == Ok(DecodedPatch(c, prev.version, next, p, ds))
  {
  }

  /**
   A bundle of patches encrypted under one key can be built exactly when there is
   something to send and the version does not overflow, and then the decoder
   accepts it on the same previous state: it arrives at the same next state and
   reads the same operations, indexes, actions and MACs in the same order.
   */
  lemma BundleAccepted(E: Env, c: Collection, prev: State, ps: seq<ChatPatch>, ivs: seq<Bytes>, keyId: Bytes,
                       keyData: Bytes, es: seq<Encrypted>)
    requires Sound(E) && ValidMacs(prev.macs) && EncryptedUnder(E, ps, ivs, keyId, keyData, es)
    ensures BuildBundle(E, c, prev, keyId, keyData, es).Ok? <==> es != [] && prev.version < U64_MAX
    ensures BuildBundle(E, c, prev, keyId, keyData, es).Ok? ==>
              var b := BuildBundle(E, c, prev, keyId, keyData, es).value;
              exists ds ::
                && ReadBack(E, ps, keyId, es, ds)
                && DecodePatch(E, c, prev, b.patch, keyData) == Ok(DecodedPatch(c, prev.version, b.next, b.patch, ds))
  {
    if es != [] {
      EncryptedParts(E, ps[0], keyId, keyData, ivs[0]);
      var keys := DeriveKeys(E.crypto, keyData).value;
      MutationsReadBack(E, ps, ivs, keyId, keyData, es, keys);
      var ds := DecodeMutations(E, MutationsOf(es), keys).value;
      InputsAgree(E, ps, ivs, keyId, keyData, es, ds);
      SameLength(es);
      BundleParts(E, c, prev, keyId, keyData, es, AsHashMutations(ds), keys);
      DecodedHashMutationsIff(ds);
      AdvanceWellSized(E.crypto, prev, ds);
      if prev.version < U64_MAX {
        BundleDecodes(E, c, prev, keyId, keyData, es, ds, keys);
        assert ReadBack(E, ps, keyId, es, ds);
      }
    }
  }

  lemma AdvanceWellSized(P: Primitives, prev: State, ds: seq<Decoded>)
    requires ValidMacs(prev.macs) && AllMacSized(ds)
    ensures Advance(P, prev, AsHashMutations(ds)).Ok? <==> prev.version < U64_MAX
  {
    ApplyValid(P, prev, prev.version + 1, AsHashMutations(ds));
  }

  lemma BundleDecodes(E: Env, c: Collection, prev: State, keyId: Bytes, keyData: Bytes, es: seq<Encrypted>,
                      ds: seq<Decoded>, keys: Keys)
    requires keyId != [] && es != [] && DeriveKeys(E.crypto, keyData) == Ok(keys) && SameInputs(es, keyId, ds)
    requires DecodeMutations(E, MutationsOf(es), keys) == Ok(ds)
    requires BuildBundle(E, c, prev, keyId, keyData, es).Ok?
    ensures var b := BuildBundle(E, c, prev, keyId, keyData, es).value;
            DecodePatch(E, c, prev, b.patch, keyData) == Ok(DecodedPatch(c, prev.version, b.next, b.patch, ds))
  {
    BundleParts(E, c, prev, keyId, keyData, es, AsHashMutations(ds), keys);
    var b := BuildBundle(E, c, prev, keyId, keyData, es).value;
    var sm: Bytes, pm: Bytes :|
      && SnapshotMac(E.crypto, b.next.hash, b.next.version, CollectionName(c), keys) == Ok(sm)
      && PatchMac(E.crypto, sm, ValueMacsOf(es), b.next.version, CollectionName(c), keys) == Ok(pm)
      && b.patch == Patch(Some(b.next.version), MutationsOf(es), Some(sm), Some(pm), Some(keyId));
    SameLength(es);
    VerifyAccepts(E, c, prev, b.next, sm, pm, ds, keys);
    DecodeAccepts(E, c, prev, b.patch, keyData, b.next, sm, pm, keyId, ds, keys);
  }

  // ----- What acceptance means -----------------------------------------------

  /** Everything the decoder has established about a patch it accepts. */
  ghost predicate Accepted(E: Env, c: Collection, prev: State, p: Patch, keys: Keys, d: DecodedPatch) {
    && p.version == Some(d.next.version)
    && d == DecodedPatch(c, prev.version, d.next, p, d.mutations)
    && DecodeMutations(E, p.mutations, keys) == Ok(d.mutations)
    && p.keyId.Some? && p.keyId.value != [] && SameKeyId(d.mutations, p.keyId.value)
    && AllMacSized(d.mutations)
    && Advance(E.crypto, prev, AsHashMutations(d.mutations)) == Ok(d.next)
    && p.snapshotMac.Some? && p.patchMac.Some?
    && SnapshotMac(E.crypto, d.next.hash, d.next.version, CollectionName(c), keys) == Ok(p.snapshotMac.value)
    && PatchMac(E.crypto, p.snapshotMac.value, DecodedMacs(d.mutations), d.next.version, CollectionName(c), keys)
    == Ok(p.patchMac.value)
  }

  lemma VerifiedParts(E: Env, c: Collection, prev: State, version: nat, sm: Bytes, pm: Bytes, ds: seq<Decoded>, keys: Keys)
    requires VerifyPatch(E, c, prev, version, sm, pm, ds, keys).Ok?
    ensures var next := VerifyPatch(E, c, prev, version, sm, pm, ds, keys).value;
            && AllMacSized(ds)
            && Advance(E.crypto, prev, AsHashMutations(ds)) == Ok(next)
            && SnapshotMac(E.crypto, next.hash, version, CollectionName(c), keys) == Ok(sm)
            && PatchMac(E.crypto, sm, DecodedMacs(ds), version, CollectionName(c), keys) == Ok(pm)
  {
    DecodedHashMutationsIff(ds);
    var next := VerifyPatch(E, c, prev, version, sm, pm, ds, keys).value;
    ConstantTimeEqIsEquality(PatchMac(E.crypto, sm, DecodedMacs(ds), version, CollectionName(c), keys).value, pm);
    ConstantTimeEqIsEquality(SnapshotMac(E.crypto, next.hash, version, CollectionName(c), keys).value, sm);
  }

  /** The checks before the MACs, and the value they hand on. */
  ghost predicate Decodes(E: Env, c: Collection, prev: State, p: Patch, keys: Keys, d: DecodedPatch) {
    && CheckHeader(prev, p).Ok?
    && var h := CheckHeader(prev, p).value;
    && DecodeMutations(E, p.mutations, keys) == Ok(d.mutations)
    && SameKeyId(d.mutations, h.keyId)
    && d == DecodedPatch(c, prev.version, d.next, p, d.mutations)
    && VerifyPatch(E, c, prev, h.version, h.snapshotMac, h.patchMac, d.mutations, keys) == Ok(d.next)
  }

  lemma DecodeSteps(E: Env, c: Collection, prev: State, p: Patch, keyData: Bytes)
    requires DecodePatch(E, c, prev, p, keyData).Ok?
    ensures DeriveKeys(E.crypto, keyData).Ok?
    ensures Decodes(E, c, prev, p, DeriveKeys(E.crypto, keyData).value, DecodePatch(E, c, prev, p, keyData).value)
  {
  }

  lemma DecodesAccepted(E: Env, c: Collection, prev: State, p: Patch, keys: Keys, d: DecodedPatch)
    requires Decodes(E, c, prev, p, keys, d)
    ensures prev.version < U64_MAX && p.mutations != [] && d.next.version == prev.version + 1
    ensures Accepted(E, c, prev, p, keys, d)
  {
    var h := CheckHeader(prev, p).value;
    VerifiedParts(E, c, prev, h.version, h.snapshotMac, h.patchMac, d.mutations, keys);
  }

  lemma AcceptedParts(E: Env, c: Collection, prev: State, p: Patch, keyData: Bytes)
    requires DecodePatch(E, c, prev, p, keyData).Ok?
    ensures DeriveKeys(E.crypto, keyData).Ok? && prev.version < U64_MAX && p.mutations != []
    ensures var d := DecodePatch(E, c, prev, p, keyData).value;
            && d.next.version == prev.version + 1
            && Accepted(E, c, prev, p, DeriveKeys(E.crypto, keyData).value, d)
  {
    DecodeSteps(E, c, prev, p, keyData);
    DecodesAccepted(E, c, prev, p, DeriveKeys(E.crypto, keyData).value, DecodePatch(E, c, prev, p, keyData).value);
  }

  /**
   An accepted patch moves the version by exactly one, keeps the stored entries
   well formed, and leaves the hash the sum of the map exactly if it was before.
   */
  lemma AcceptedKeepsInvariants(E: Env, c: Collection, prev: State, p: Patch, keyData: Bytes)
    requires ValidMacs(prev.macs) && DecodePatch(E, c, prev, p, keyData).Ok?
    ensures var next := DecodePatch(E, c, prev, p, keyData).value.next;
            && next.version == prev.version + 1 <= U64_MAX
            && ValidMacs(next.macs)
            && (Consistent(E.crypto, next) <==> Consistent(E.crypto, prev))
  {
    AcceptedParts(E, c, prev, p, keyData);
    var ms := AsHashMutations(DecodePatch(E, c, prev, p, keyData).value.mutations);
    ApplyValid(E.crypto, prev, prev.version + 1, ms);
    ApplyConsistent(E.crypto, prev, prev.version + 1, ms);
  }

  // ----- Exactly when something is accepted ------------------------------------

  /** Everything that a record must satisfy to be read as `d`. */
  ghost predicate Authentic(E: Env, op: Operation, r: Record, keys: Keys, d: Decoded) {
    && d.op == op && d.keyId != [] && d.encryptedValue != [] && MacSized(d)
    && r == Record(Some(d.indexMac), Some(d.encryptedValue + d.valueMac), Some(d.keyId))
    && ValueMac(E.crypto, op, d.encryptedValue, d.keyId, keys) == Ok(d.valueMac)
    && DecryptValue(E.crypto, d.encryptedValue, keys).Ok?
    && E.formats.decodeAction(DecryptValue(E.crypto, d.encryptedValue, keys).value) == Some(d.action)
    && d.action.index.Some?
    && IndexMac(E.crypto, d.action.index.value, keys) == d.indexMac
    && E.formats.decodeIndex(d.action.index.value) == Some(d.index)
  }

  lemma OpenedAuthentic(E: Env, op: Operation, indexMac: Bytes, keyId: Bytes, sealed: Bytes, valueMac: Bytes, keys: Keys)
    requires OpenRecord(E, op, indexMac, keyId, sealed, valueMac, keys).Ok?
    ensures var d := OpenRecord(E, op, indexMac, keyId, sealed, valueMac, keys).value;
            && d == Decoded(op, keyId, indexMac, valueMac, sealed, d.index, d.action)
            && ValueMac(E.crypto, op, sealed, keyId, keys) == Ok(valueMac)
            && DecryptValue(E.crypto, sealed, keys).Ok?
            && E.formats.decodeAction(DecryptValue(E.crypto, sealed, keys).value) == Some(d.action)
            && d.action.index.Some?
            && IndexMac(E.crypto, d.action.index.value, keys) == indexMac
            && E.formats.decodeIndex(d.action.index.value) == Some(d.index)
  {
    var d := OpenRecord(E, op, indexMac, keyId, sealed, valueMac, keys).value;
    ConstantTimeEqIsEquality(ValueMac(E.crypto, op, sealed, keyId, keys).value, valueMac);
    ConstantTimeEqIsEquality(IndexMac(E.crypto, d.action.index.value, keys), indexMac);
  }

  lemma AuthenticOpens(E: Env, op: Operation, r: Record, keys: Keys, d: Decoded)
    requires Authentic(E, op, r, keys, d)
    ensures OpenRecord(E, op, d.indexMac, d.keyId, d.encryptedValue, d.valueMac, keys) == Ok(d)
  {
    ConstantTimeEqIsEquality(d.valueMac, d.valueMac);
    ConstantTimeEqIsEquality(d.indexMac, d.indexMac);
  }

  lemma DecodedRecordParts(E: Env, op: Operation, r: Record, keys: Keys)
    requires DecodeRecord(E, op, r, keys).Ok?
    ensures r.index.Some? && |r.index.value| == MAC_LEN && r.keyId.Some? && r.keyId.value != []
    ensures r.value.Some? && |r.value.value| > MAC_LEN
    ensures var n := |r.value.value| - MAC_LEN;
            DecodeRecord(E, op, r, keys)
            == OpenRecord(E, op, r.index.value, r.keyId.value, r.value.value[..n], r.value.value[n..], keys)
  {
  }

  /**
   A record is read as `d` if and only if it carries exactly d's parts, its value
   MAC authenticates operation, ciphertext and key id, it decrypts to d's action,
   and its index MAC is that of the action's index.
   */
  lemma RecordAuthentic(E: Env, op: Operation, r: Record, keys: Keys, d: Decoded)
    ensures DecodeRecord(E, op, r, keys) == Ok(d) <==> Authentic(E, op, r, keys, d)
  {
    if DecodeRecord(E, op, r, keys) == Ok(d) {
      DecodedRecordParts(E, op, r, keys);
      var blob := r.value.value;
      var n := |blob| - MAC_LEN;
      OpenedAuthentic(E, op, r.index.value, r.keyId.value, blob[..n], blob[n..], keys);
      assert blob[..n] + blob[n..] == blob;
    }
    if Authentic(E, op, r, keys, d) {
      RecordSplits(d.encryptedValue, d.valueMac);
      AuthenticOpens(E, op, r, keys, d);
    }
  }

  /**
   Two records read under one set of keys with the same value MAC: either the
   frames under the MAC are two different inputs with one truncated output, or
   the records agree on operation, ciphertext and key id, and so on their action
   and index as well.
   */
  lemma ValueMacBinds(E: Env, keys: Keys, r1: Record, d1: Decoded, r2: Record, d2: Decoded)
    requires DecodeRecord(E, d1.op, r1, keys) == Ok(d1) && DecodeRecord(E, d2.op, r2, keys) == Ok(d2)
    requires d1.valueMac == d2.valueMac && 1 + |d1.keyId| < U64_SIZE && 1 + |d2.keyId| < U64_SIZE
    ensures var f := MutationFrame(d1.op, d1.encryptedValue, d1.keyId);
            var g := MutationFrame(d2.op, d2.encryptedValue, d2.keyId);
            && E.crypto.hmac512(f, keys.value)[..MAC_LEN] == E.crypto.hmac512(g, keys.value)[..MAC_LEN]
            && (f == g ==> d1 == d2)
  {
    RecordAuthentic(E, d1.op, r1, keys, d1);
    RecordAuthentic(E, d2.op, r2, keys, d2);
    if MutationFrame(d1.op, d1.encryptedValue, d1.keyId) == MutationFrame(d2.op, d2.encryptedValue, d2.keyId) {
      MutationFrameInjective(d1.op, d1.encryptedValue, d1.keyId, d2.op, d2.encryptedValue, d2.keyId);
    }
  }

  lemma AcceptedDecodes(E: Env, c: Collection, prev: State, p: Patch, keyData: Bytes, keys: Keys, d: DecodedPatch)
    requires DeriveKeys(E.crypto, keyData) == Ok(keys) && Accepted(E, c, prev, p, keys, d)
    requires prev.version < U64_MAX && p.mutations != [] && d.next.version == prev.version + 1
    ensures DecodePatch(E, c, prev, p, keyData) == Ok(d)
  {
    DecodedHashMutationsIff(d.mutations);
    VerifyAccepts(E, c, prev, d.next, p.snapshotMac.value, p.patchMac.value, d.mutations, keys);
    DecodeAccepts(E, c, prev, p, keyData, d.next, p.snapshotMac.value, p.patchMac.value, p.keyId.value, d.mutations, keys);
  }

  /**
   A patch is accepted as `d` if and only if it has mutations, follows the
   previous version, every mutation is read and names the patch's key, and the
   two MACs are those of the very mutations and of the state they lead to.
   */
  lemma AcceptedExactly(E: Env, c: Collection, prev: State, p: Patch, keyData: Bytes, d: DecodedPatch)
    ensures DecodePatch(E, c, prev, p, keyData) == Ok(d)
       <==> && DeriveKeys(E.crypto, keyData).Ok?
            && prev.version < U64_MAX && p.mutations != [] && d.next.version == prev.version + 1
            && Accepted(E, c, prev, p, DeriveKeys(E.crypto, keyData).value, d)
  {
    if DecodePatch(E, c, prev, p, keyData) == Ok(d) {
      AcceptedParts(E, c, prev, p, keyData);
    }
    if DeriveKeys(E.crypto, keyData).Ok? && prev.version < U64_MAX && p.mutations != []
       && d.next.version == prev.version + 1 && Accepted(E, c, prev, p, DeriveKeys(E.crypto, keyData).value, d) {
      AcceptedDecodes(E, c, prev, p, keyData, DeriveKeys(E.crypto, keyData).value, d);
    }
  }

  lemma {:induction false} KeyIdsChecked(es: seq<Encrypted>, keyId: Bytes)
    ensures CheckKeyIds(es, keyId).Ok?
       <==> forall i :: 0 <= i < |es| ==> CheckKeyId(es[i].mutation, keyId).Ok?
    decreases |es|
  {
    if es != [] {
      KeyIdsChecked(es[1..], keyId);
      assert forall i :: 0 < i < |es| ==> es[i] == es[1..][i - 1];
      assert forall i :: 0 <= i < |es[1..]| ==> es[1..][i] == es[i + 1];
    }
  }

  lemma {:induction false} MutationsListed(es: seq<Encrypted>, i: nat)
    requires i < |es|
    ensures |MutationsOf(es)| == |es| && MutationsOf(es)[i] == es[i].mutation
    decreases |es|
  {
    SameLength(es);
    if i > 0 {
      MutationsListed(es[1..], i - 1);
    }
  }

  /** Whatever was encrypted: a bundle holds the given mutations in order, all of one key, at the next version. */
  lemma BundleContents(E: Env, c: Collection, prev: State, keyId: Bytes, keyData: Bytes, es: seq<Encrypted>, i: nat)
    requires BuildBundle(E, c, prev, keyId, keyData, es).Ok? && i < |es|
    ensures var b := BuildBundle(E, c, prev, keyId, keyData, es).value;
            && b.collection == c && b.previousVersion == prev.version && b.next.version == prev.version + 1
            && b.patch.version == Some(b.next.version) && b.patch.keyId == Some(keyId) && keyId != []
            && |b.patch.mutations| == |es| && b.patch.mutations[i] == es[i].mutation
            && CheckKeyId(es[i].mutation, keyId).Ok?
  {
    KeyIdsChecked(es, keyId);
    MutationsListed(es, i);
  }

  // ----- Divergence ----------------------------------------------------------

  /** The same mutations keep the difference of two hashes over one map. */
  lemma DifferenceKept(P: Primitives, s: State, t: State, ms: seq<HashMutation>)
    requires Sorted(s.macs) && s.version == t.version && s.macs == t.macs && Advance(P, s, ms).Ok?
    ensures Advance(P, t, ms).Ok?
    ensures Advance(P, s, ms).value.macs == Advance(P, t, ms).value.macs
    ensures Advance(P, s, ms).value.hash == Advance(P, t, ms).value.hash <==> s.hash == t.hash
  {
    Conservation(P, s, s.version + 1, ms);
    Conservation(P, t, t.version + 1, ms);
    var x, y := Advance(P, s, ms).value, Advance(P, t, ms).value;
    var before, after := Total(P, s.macs), Total(P, x.macs);
    SubThenAdd(s.hash, before);
    SubThenAdd(t.hash, before);
    SubThenAdd(x.hash, after);
    SubThenAdd(y.hash, after);
  }

  /** The snapshot frame that the MAC after `ms` is taken of. */
  function FrameAfter(P: Primitives, c: Collection, s: State, ms: seq<HashMutation>): Bytes
    requires Advance(P, s, ms).Ok?
  {
    SnapshotFrame(Advance(P, s, ms).value.hash, s.version + 1, CollectionName(c))
  }

  lemma FramesDiffer(P: Primitives, c: Collection, s: State, t: State, ms: seq<HashMutation>)
    requires Sorted(s.macs) && s.version == t.version && s.macs == t.macs && Advance(P, s, ms).Ok?
    ensures Advance(P, t, ms).Ok?
    ensures FrameAfter(P, c, s, ms) == FrameAfter(P, c, t, ms) <==> s.hash == t.hash
  {
    DifferenceKept(P, s, t, ms);
    WidthSizes();
    if FrameAfter(P, c, s, ms) == FrameAfter(P, c, t, ms) {
      SnapshotFrameInjective(Advance(P, s, ms).value.hash, s.version + 1, CollectionName(c),
                             Advance(P, t, ms).value.hash, s.version + 1, CollectionName(c));
    }
  }

  /** On a state where the map and version agree, only the snapshot MAC can tell the difference. */
  lemma VerifyOnOther(E: Env, c: Collection, prev: State, other: State, sm: Bytes, pm: Bytes, ds: seq<Decoded>,
                      keys: Keys)
    requires VerifyPatch(E, c, prev, prev.version + 1, sm, pm, ds, keys).Ok?
    requires prev.version == other.version && Advance(E.crypto, prev, AsHashMutations(ds)).Ok?
    requires Advance(E.crypto, other, AsHashMutations(ds)).Ok?
    ensures var f := FrameAfter(E.crypto, c, prev, AsHashMutations(ds));
            var g := FrameAfter(E.crypto, c, other, AsHashMutations(ds));
            VerifyPatch(E, c, other, prev.version + 1, sm, pm, ds, keys)
            == (if E.crypto.hmac256(f, keys.snapshot) == E.crypto.hmac256(g, keys.snapshot)
                then Ok(Advance(E.crypto, other, AsHashMutations(ds)).value) else Err(SnapshotMacFailed))
  {
    DecodedHashMutationsIff(ds);
    NamesDiffer(c, c);
    VerifiedParts(E, c, prev, prev.version + 1, sm, pm, ds, keys);
    var g := FrameAfter(E.crypto, c, other, AsHashMutations(ds));
    ConstantTimeEqIsEquality(E.crypto.hmac256(g, keys.snapshot), sm);
  }

  lemma DecodeOnOther(E: Env, c: Collection, other: State, p: Patch, keyData: Bytes, prev: State, keys: Keys,
                      d: DecodedPatch)
    requires Decodes(E, c, prev, p, keys, d) && other.version == prev.version && DeriveKeys(E.crypto, keyData) == Ok(keys)
    ensures var v := VerifyPatch(E, c, other, prev.version + 1, p.snapshotMac.value, p.patchMac.value, d.mutations, keys);
            DecodePatch(E, c, other, p, keyData)
            == (if v.Ok? then Ok(DecodedPatch(c, other.version, v.value, p, d.mutations)) else Err(v.error))
  {
    assert CheckHeader(other, p) == CheckHeader(prev, p);
  }

  /** The mutations that an accepted patch carries. */
  function Carried(E: Env, c: Collection, prev: State, p: Patch, keyData: Bytes): seq<HashMutation>
    requires DecodePatch(E, c, prev, p, keyData).Ok?
  {
    AsHashMutations(DecodePatch(E, c, prev, p, keyData).value.mutations)
  }

  /**
   Two devices that agree on version and map but not on the hash: a patch that one
   accepts is rejected by the other, at the snapshot MAC, unless the snapshot
   MAC's function maps the two different frames to one output.
   */
  lemma DivergenceDetected(E: Env, c: Collection, prev: State, other: State, p: Patch, keyData: Bytes)
    requires Sorted(prev.macs) && DecodePatch(E, c, prev, p, keyData).Ok?
    requires prev.version == other.version && prev.macs == other.macs && prev.hash != other.hash
    ensures DeriveKeys(E.crypto, keyData).Ok?
    ensures Advance(E.crypto, prev, Carried(E, c, prev, p, keyData)).Ok?
    ensures Advance(E.crypto, other, Carried(E, c, prev, p, keyData)).Ok?
    ensures var f := FrameAfter(E.crypto, c, prev, Carried(E, c, prev, p, keyData));
            var g := FrameAfter(E.crypto, c, other, Carried(E, c, prev, p, keyData));
            var key := DeriveKeys(E.crypto, keyData).value.snapshot;
            && f != g
            && (E.crypto.hmac256(f, key) != E.crypto.hmac256(g, key)
                <==> DecodePatch(E, c, other, p, keyData) == Err(SnapshotMacFailed))
            && (E.crypto.hmac256(f, key) == E.crypto.hmac256(g, key) <==> DecodePatch(E, c, other, p, keyData).Ok?)
  {
    AcceptedParts(E, c, prev, p, keyData);
    var keys := DeriveKeys(E.crypto, keyData).value;
    var d := DecodePatch(E, c, prev, p, keyData).value;
    FramesDiffer(E.crypto, c, prev, other, AsHashMutations(d.mutations));
    DecodeSteps(E, c, prev, p, keyData);
    DecodeOnOther(E, c, other, p, keyData, prev, keys, d);
    VerifyOnOther(E, c, prev, other, p.snapshotMac.value, p.patchMac.value, d.mutations, keys);
  }

  // ----- Authenticity --------------------------------------------------------

  /** The frame that an accepted patch's MAC is taken of. */
  function AcceptedFrame(c: Collection, d: DecodedPatch): Bytes
    requires d.patch.snapshotMac.Some? && d.patch.version.Some?
  {
    PatchFrame(d.patch.snapshotMac.value, DecodedMacs(d.mutations), d.patch.version.value, CollectionName(c))
  }

  lemma FrameBinds(E: Env, keys: Keys, c1: Collection, prev1: State, d1: DecodedPatch,
                   c2: Collection, prev2: State, d2: DecodedPatch)
    requires Accepted(E, c1, prev1, d1.patch, keys, d1) && Accepted(E, c2, prev2, d2.patch, keys, d2)
    requires d1.next.version <= U64_MAX && d2.next.version <= U64_MAX
    requires AcceptedFrame(c1, d1) == AcceptedFrame(c2, d2)
    ensures c1 == c2 && d1.patch.version == d2.patch.version && d1.patch.snapshotMac == d2.patch.snapshotMac
    ensures DecodedMacs(d1.mutations) == DecodedMacs(d2.mutations)
  {
    NamesDiffer(c1, c2);
    NamesDiffer(c2, c1);
    WidthSizes();
    PatchFrameInjective(d1.patch.snapshotMac.value, DecodedMacs(d1.mutations), d1.next.version, CollectionName(c1),
                        d2.patch.snapshotMac.value, DecodedMacs(d2.mutations), d2.next.version, CollectionName(c2));
  }

  /**
   Two patches accepted under one key with the same patch MAC, on whatever states
   and collections: either their frames are two different inputs with one MAC, or
   they agree on the collection, the version, the snapshot MAC and the whole list
   of value MACs.
   */
  lemma PatchMacBinds(E: Env, keyData: Bytes, c1: Collection, prev1: State, p1: Patch,
                      c2: Collection, prev2: State, p2: Patch)
    requires DecodePatch(E, c1, prev1, p1, keyData).Ok? && DecodePatch(E, c2, prev2, p2, keyData).Ok?
    requires p1.patchMac == p2.patchMac
    ensures DeriveKeys(E.crypto, keyData).Ok?
    ensures p1.snapshotMac.Some? && p1.version.Some? && p2.snapshotMac.Some? && p2.version.Some?
    ensures var d1, d2 := DecodePatch(E, c1, prev1, p1, keyData).value, DecodePatch(E, c2, prev2, p2, keyData).value;
            var f, g, key := AcceptedFrame(c1, d1), AcceptedFrame(c2, d2), DeriveKeys(E.crypto, keyData).value.patch;
            && E.crypto.hmac256(f, key) == E.crypto.hmac256(g, key)
            && (f == g ==>
                  && c1 == c2 && p1.version == p2.version && p1.snapshotMac == p2.snapshotMac
                  && DecodedMacs(d1.mutations) == DecodedMacs(d2.mutations))
  {
    AcceptedParts(E, c1, prev1, p1, keyData);
    AcceptedParts(E, c2, prev2, p2, keyData);
    var keys := DeriveKeys(E.crypto, keyData).value;
    var d1, d2 := DecodePatch(E, c1, prev1, p1, keyData).value, DecodePatch(E, c2, prev2, p2, keyData).value;
    if AcceptedFrame(c1, d1) == AcceptedFrame(c2, d2) {
      FrameBinds(E, keys, c1, prev1, d1, c2, prev2, d2);
    }
  }

  // ----- Snapshots -----------------------------------------------------------

  lemma SnapshotParts(E: Env, c: Collection, s: Snapshot, keyData: Bytes)
    requires DecodeSnapshot(E, c, s, keyData).Ok?
    ensures var d := DecodeSnapshot(E, c, s, keyData).value;
            && AllMacSized(d.mutations)
            && s.version == Some(d.state.version)
            && ApplyAt(E.crypto, EMPTY, d.state.version, AsHashMutations(d.mutations)) == Ok(d.state)
  {
    DecodedHashMutationsIff(DecodeSnapshot(E, c, s, keyData).value.mutations);
  }

  /** Everything that a snapshot must satisfy to be accepted as `d`. */
  ghost predicate AcceptedSnapshot(E: Env, c: Collection, s: Snapshot, keys: Keys, d: DecodedSnapshot) {
    && d.collection == c && s.version == Some(d.state.version)
    && s.keyId.Some? && s.keyId.value != [] && SameKeyId(d.mutations, s.keyId.value)
    && DecodeRecords(E, s.records, keys) == Ok(d.mutations)
    && AllMacSized(d.mutations)
    && ApplyAt(E.crypto, EMPTY, d.state.version, AsHashMutations(d.mutations)) == Ok(d.state)
    && s.mac.Some?
    && SnapshotMac(E.crypto, d.state.hash, d.state.version, CollectionName(c), keys) == Ok(s.mac.value)
  }

  lemma SnapshotVerifies(E: Env, c: Collection, version: nat, mac: Bytes, ds: seq<Decoded>, keys: Keys, state: State)
    ensures VerifySnapshot(E, c, version, mac, ds, keys) == Ok(state)
       <==> && AllMacSized(ds) && ApplyAt(E.crypto, EMPTY, version, AsHashMutations(ds)) == Ok(state)
            && SnapshotMac(E.crypto, state.hash, version, CollectionName(c), keys) == Ok(mac)
  {
    DecodedHashMutationsIff(ds);
    NamesDiffer(c, c);
    ConstantTimeEqIsEquality(SnapshotMac(E.crypto, state.hash, version, CollectionName(c), keys).value, mac);
  }

  /** The same for snapshots: records, one key, and the MAC of the state rebuilt from nothing. */
  lemma SnapshotExactly(E: Env, c: Collection, s: Snapshot, keyData: Bytes, d: DecodedSnapshot)
    ensures DecodeSnapshot(E, c, s, keyData) == Ok(d)
       <==> DeriveKeys(E.crypto, keyData).Ok? && AcceptedSnapshot(E, c, s, DeriveKeys(E.crypto, keyData).value, d)
  {
    if s.version.Some? && s.mac.Some? && DeriveKeys(E.crypto, keyData).Ok? {
      SnapshotVerifies(E, c, s.version.value, s.mac.value, d.mutations, DeriveKeys(E.crypto, keyData).value, d.state);
    }
  }

  /** A snapshot that is accepted is a consistent, storable state at the snapshot's own version. */
  lemma SnapshotConsistent(E: Env, c: Collection, s: Snapshot, keyData: Bytes)
    requires DecodeSnapshot(E, c, s, keyData).Ok?
    ensures var d := DecodeSnapshot(E, c, s, keyData).value;
            && s.version == Some(d.state.version)
            && Consistent(E.crypto, d.state)
            && ValidMacs(d.state.macs)
  {
    SnapshotParts(E, c, s, keyData);
    var d := DecodeSnapshot(E, c, s, keyData).value;
    EmptyConsistent(E.crypto);
    ApplyConsistent(E.crypto, EMPTY, d.state.version, AsHashMutations(d.mutations));
    ApplyValid(E.crypto, EMPTY, d.state.version, AsHashMutations(d.mutations));
  }

  /** A snapshot of exactly the entries that a chain of patches left, in any order, is that chain's state. */
  lemma SnapshotReplaces(E: Env, c: Collection, s: Snapshot, keyData: Bytes, patches: seq<seq<HashMutation>>)
    requires Run(E.crypto, EMPTY, patches).Ok? && DecodeSnapshot(E, c, s, keyData).Ok?
    requires Records(AsHashMutations(DecodeSnapshot(E, c, s, keyData).value.mutations),
                     Run(E.crypto, EMPTY, patches).value.macs)
    requires s.version == Some(|patches|)
    ensures Ok(DecodeSnapshot(E, c, s, keyData).value.state) == Run(E.crypto, EMPTY, patches)
  {
    SnapshotParts(E, c, s, keyData);
    SnapshotIsReplay(E.crypto, patches, AsHashMutations(DecodeSnapshot(E, c, s, keyData).value.mutations));
  }

  // ----- Local echo ----------------------------------------------------------

  function ReportedOf(d: Decoded): Reported {
    Reported(d.op, d.index, d.action)
  }

  function ReportedOfAll(ds: seq<Decoded>): seq<Reported> {
    if ds == [] then [] else [ReportedOf(ds[0])] + ReportedOfAll(ds[1..])
  }

  /** `event_batch_from_chat_mutation_patch` */
  function LocalBatch(E: Env, p: ChatPatch, initial: bool): Result<Batch, CoreError> {
    var action :- BuildAction(E, p);
    OfEvent(BatchOf([Reported(p.op, p.index, action)], initial))
  }

  function OfEvent<V>(r: Result<V, EventError>): Result<V, CoreError> {
    if r.Ok? then Ok(r.value) else Err(EventFailed(r.error))
  }

  /** The local batches of a list of chat patches, joined in order. */
  function LocalBatches(E: Env, ps: seq<ChatPatch>, initial: bool): Result<Batch, CoreError> {
    if ps == [] then Ok(NO_EVENTS)
    else
      var first :- LocalBatch(E, ps[0], initial);
      var rest :- LocalBatches(E, ps[1..], initial);
      Ok(Join(first, rest))
  }

  /** `event_batch_from_decoded_app_state_mutations` */
  function DecodedBatch(ds: seq<Decoded>, initial: bool): Result<Batch, CoreError> {
    OfEvent(BatchOf(ReportedOfAll(ds), initial))
  }

  lemma {:induction false} OntoIsJoin(batch: Batch, ms: seq<Reported>, initial: bool)
    ensures BatchOnto(batch, ms, initial)
         == if BatchOf(ms, initial).Ok? then Ok(Join(batch, BatchOf(ms, initial).value)) else BatchOf(ms, initial)
    decreases |ms|
  {
    if ms == [] {
      JoinNothing(batch);
    } else if EventsOf(ms[0].op, ms[0].index, ms[0].action, initial).Ok? {
      var e := EventsOf(ms[0].op, ms[0].index, ms[0].action, initial).value;
      OntoIsJoin(Join(batch, e), ms[1..], initial);
      OntoIsJoin(Join(NO_EVENTS, e), ms[1..], initial);
      JoinNothing(e);
      if BatchOf(ms[1..], initial).Ok? {
        JoinAssoc(batch, e, BatchOf(ms[1..], initial).value);
      }
    }
  }

  lemma BatchOfOne(m: Reported, initial: bool)
    ensures BatchOf([m], initial) == EventsOf(m.op, m.index, m.action, initial)
  {
    var e := EventsOf(m.op, m.index, m.action, initial);
    if e.Ok? {
      JoinNothing(e.value);
      assert BatchOnto(Join(NO_EVENTS, e.value), [m][1..], initial) == e;
    }
  }

  lemma BatchOfMore(m: Reported, rest: seq<Reported>, initial: bool)
    ensures BatchOf([m] + rest, initial)
         == (if BatchOf([m], initial).Err? then BatchOf([m], initial)
             else if BatchOf(rest, initial).Err? then BatchOf(rest, initial)
             else Ok(Join(BatchOf([m], initial).value, BatchOf(rest, initial).value)))
  {
    BatchOfOne(m, initial);
    var e := EventsOf(m.op, m.index, m.action, initial);
    var ms := [m] + rest;
    assert ms[0] == m && ms[1..] == rest;
    if e.Ok? {
      JoinNothing(e.value);
      OntoIsJoin(e.value, rest, initial);
    }
  }

  /**
   Local echo agrees with remote decode: what the sender reports from its own
   patches, joined in order, is what a receiver reports from the decoded bundle,
   including when deriving an event fails.
   */
  lemma {:induction false} LocalEcho(E: Env, ps: seq<ChatPatch>, keyId: Bytes, es: seq<Encrypted>, ds: seq<Decoded>,
                                     initial: bool)
    requires ReadBack(E, ps, keyId, es, ds)
    ensures LocalBatches(E, ps, initial) == DecodedBatch(ds, initial)
    decreases |ps|
  {
    if ps == [] {
      assert ds == [];
    } else {
      var m := ReportedOf(ds[0]);
      LocalEcho(E, ps[1..], keyId, es[1..], ds[1..], initial);
      BatchOfMore(m, ReportedOfAll(ds[1..]), initial);
    }
  }

  /** From chat patches to events on another device: upload and decoding change nothing that is reported. */
  lemma BundleEcho(E: Env, c: Collection, prev: State, ps: seq<ChatPatch>, ivs: seq<Bytes>, keyId: Bytes, keyData: Bytes,
                   es: seq<Encrypted>, initial: bool)
    requires Sound(E) && ValidMacs(prev.macs) && EncryptedUnder(E, ps, ivs, keyId, keyData, es)
    requires BuildBundle(E, c, prev, keyId, keyData, es).Ok?
    ensures var d := DecodePatch(E, c, prev, BuildBundle(E, c, prev, keyId, keyData, es).value.patch, keyData);
            d.Ok? && DecodedBatch(d.value.mutations, initial) == LocalBatches(E, ps, initial)
  {
    BundleAccepted(E, c, prev, ps, ivs, keyId, keyData, es);
    var b := BuildBundle(E, c, prev, keyId, keyData, es).value;
    var ds :| ReadBack(E, ps, keyId, es, ds)
              && DecodePatch(E, c, prev, b.patch, keyData) == Ok(DecodedPatch(c, prev.version, b.next, b.patch, ds));
    LocalEcho(E, ps, keyId, es, ds, initial);
  }
}
