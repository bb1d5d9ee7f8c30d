/**
 Where app-state sync keeps what in the auth store, and in which bytes
 (crates/wa-core/src/app_state.rs).
 */
module SyncLayout {
  import opened Prelude
  import opened Text
  import opened LtHash
  import opened PatchState
  import opened StateBytes
  import opened StateLayout
  import opened PatchProtocol
  import opened PatchWire
  import opened Store
  import opened SyncStore

  function StateEntry(c: Collection): StoreKey {
    StoreKey(AppStateSyncVersion, Ascii(NameText(c)))
  }

  function BlockedEntry(c: Collection): StoreKey {
    StoreKey(AppStateSyncBlocked, Ascii(NameText(c)))
  }

  /** A state that fits is stored under the name of its collection, in its layout, and nothing else changes. */
  lemma StateSaved(m: Contents, c: Collection, s: State)
    requires Storable(s)
    ensures SaveState(m, c, s) == Ok(m[StateEntry(c) := StateText(s.version, s.hash, RawsOf(s.macs))])
  {
    NamesSpelled(c);
    StateWritten(s);
  }

  /**
   A collection is loaded as the state whose layout is stored under its name, or, if
   nothing is, as version 0 with a hash of 128 zero bytes and no entries.
   */
  lemma StateLoaded(m: Contents, c: Collection, s: State)
    ensures LoadState(m, c) == Ok(s)
       <==> if StateEntry(c) in m then exists es :: LaidOut(m[StateEntry(c)], s, es)
            else s.version == 0 && s.macs == [] && forall i :: 0 <= i < 128 ==> s.hash[i] == 0
  {
    NamesSpelled(c);
    if StateEntry(c) in m {
      StateExactly(m[StateEntry(c)], s);
    } else {
      ZeroHash(s.hash);
    }
  }

  lemma ZeroHash(h: Hash)
    ensures h == ZERO <==> forall i :: 0 <= i < 128 ==> h[i] == 0
  {
    assert |ZERO| == 128 && forall i :: 0 <= i < 128 ==> ZERO[i] == 0;
  }

  /** A blocked record is stored under the name of its collection, in its layout, if it has a key id. */
  lemma BlockedSaved(m: Contents, c: Collection, b: Blocked)
    ensures SaveBlocked(m, c, b).Ok? <==> b.keyId != [] && |b.keyId| < 0x1_0000_0000
    ensures SaveBlocked(m, c, b).Ok? ==> SaveBlocked(m, c, b) == Ok(m[BlockedEntry(c) := BlockedText(b)])
    ensures ClearBlocked(m, c) == m - {BlockedEntry(c)}
  {
    NamesSpelled(c);
    BlockedWritten(b);
  }

  /** The record that a collection waits with, if there is one. */
  lemma BlockedLoaded(m: Contents, c: Collection, b: Blocked)
    ensures LoadBlocked(m, c) == Ok(Some(b)) <==> BlockedEntry(c) in m && m[BlockedEntry(c)] == BlockedText(b) && StateLayout.Fits(b)
    ensures LoadBlocked(m, c) == Ok(None) <==> BlockedEntry(c) !in m
  {
    NamesSpelled(c);
    if BlockedEntry(c) in m {
      BlockedExactly(m[BlockedEntry(c)], b);
    }
  }

  /** A sync key is stored under the base64 text of its id, if neither is empty. */
  lemma KeySaved(E: Env, m: Contents, keyId: Bytes, keyData: Bytes)
    ensures SaveKey(E, m, keyId, keyData).Ok? <==> keyId != [] && keyData != []
    ensures SaveKey(E, m, keyId, keyData).Ok? ==>
              SaveKey(E, m, keyId, keyData)
              == Ok(m[StoreKey(AppStateSyncKey, Base64.Encode(keyId)) := E.formats.encodeKey(keyData)])
  {
  }

  /** A key is there if its record is and holds data that is not empty; no record is no error. */
  lemma KeyLoaded(E: Env, m: Contents, keyId: Bytes, keyData: Bytes)
    ensures var k := StoreKey(AppStateSyncKey, Base64.Encode(keyId));
            && (LoadKey(E, m, keyId) == Ok(Some(keyData))
                <==> keyId != [] && keyData != [] && k in m && E.formats.decodeKey(m[k]) == Some(Some(keyData)))
            && (LoadKey(E, m, keyId) == Ok(None) <==> keyId != [] && k !in m)
  {
  }
}
