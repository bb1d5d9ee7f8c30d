# Verified model of the Irminsul client core

Irminsul is a WhatsApp client written in Rust. This project models, in Dafny, the
parts of it whose correctness is hardest to see by reading, and proves what they
promise:

* **The binary node codec** (`Node*.dfy`, `Tokens.dfy`, `Jid.dfy`). The wire format is
  a set of functions; the encoder and decoder are programs over a buffer and a cursor
  proved against them, and a grammar of literal bytes derives exactly what is read. What a tree comes back as is defined exactly (its *norm*), and so
  are the trees that come back unchanged.
* **App-state sync** (`LtHash.dfy`, `AppCrypto.dfy`, `PatchState.dfy`, `StateBytes.dfy`,
  `StateLayout.dfy`, `Event*.dfy`, `Patch*.dfy`, `Sync*.dfy`). A replicated map with a version, a homomorphic
  hash and MACs; building, checking and storing patches and snapshots; blocking on missing
  keys and resuming. The specification is functions over the stored entries; the loops
  that change a store are methods proved against it.
* **The connection lifecycle** (`Queries.dfy`, `Connection*.dfy`). Queries, senders,
  closers, the outbound and the inbound task as one transition system in which every
  shared access is a step; theorems are about every reachable state or every run.
* **Credentials and the in-memory store** (`Credentials.dfy`, `Store.dfy`).

`dafny verify dfyconfig.toml` checks everything.

## How to read it

* Strings are their UTF-8 bytes; `Byte` is 0..255. A `BTreeMap` is the sorted sequence of
  its entries (`SortedMap.dfy`), so that equality of maps is equality of sequences.
* HKDF, HMAC and AES are fields of `AppCrypto.Primitives`. The one law assumed of them is
  that decryption undoes encryption (`Lawful`). No MAC is assumed injective: where forgery
  matters, a theorem names the two different inputs that would have to collide.
* The protobuf and JSON encodings of actions, indexes and keys are fields of
  `PatchProtocol.Formats`; the law assumed is that decoding undoes encoding (`Faithful`).
  How records, patches and MAC inputs are laid out around them is modelled byte by byte.
* The token tables are a parameter with their shape fixed by `Tokens.Shape`: 236 single
  tokens of which the first is empty, four dictionaries of 256, and no `@` in any. Where
  it matters (`NodeDispatch.ShortTokens`), none is longer than 48 bytes.
* zlib inflation is a parameter of the decoder. Its law is not needed.

## Where the code and its promises part

* A plain round trip of the codec does not hold for every tree the encoder accepts.
  `NodeCanonical.CanonicalIff` says for which it does; `NodeTheorems.NodeRead` says what
  happens otherwise. Strings that the decoder itself has produced can be undecodable once
  written again (`NodeDecoding.UnreadableArrives`), which matters because dispatching a
  node to a waiting query writes it again.
* `str::parse::<u16>` accepts a leading `+`, so `user:+7@s.whatsapp.net` has device 7; the
  model does the same.
* A query can be told that the connection is closed while it is open:
  `ConnectionAnswers.ClosedIsHonest` says exactly when.
* A frame that is handed to a query need not become its answer: `ConnectionAnswers.AnsweredIff`
  says when it does.
* A connection can end without a Closed event, and Closed can come before Open:
  `ConnectionEnds.EndAnnouncedIff` and `ConnectionEnds.ClosedFirstIff` say exactly when.
* The inbound loop can end and leave the connection open: it writes every node that has an
  id again, and `NodeDispatch.NodeFitsIff` says which nodes cannot be written.
  `NodeDispatch.UnwritableArrives` is a payload whose node cannot;
  `ConnectionLoop.DeafenedIff` and `ConnectionFrames.DeadLoopBytes` say exactly when the
  loop ends so, and `ConnectionFrames.DeafWhileOpen` is a run in which it does.
* A frame whose `send_frame` returned without an error need not be sent:
  `ConnectionSends.AcceptedIsSentIff` says when it is.
* A sync response that fails returns nothing of the patches it has stored, and they cannot
  be applied again: `SyncReturns.EventsReachIff` says exactly which events are lost,
  `SyncReturns.LostForGood` that they are lost for good, and `SyncReturns.RepeatLoses`
  gives such a response for every entry that succeeds and gets a patch through.
* During the initial sync a deleted chat can be reported as a starred message
  (`Events.StarInsteadOfDelete`).
* Snapshots are stored without comparing versions, so versions only grow over patches
  (`SyncResponse.ResponseSafe`), not over snapshots (`Sync.SnapshotReplacesStored`).

## Model

| member | source | states |
|---|---|---|
| `NodeTheorems.NodeRead` | crates/wa-binary/src/codec.rs:84-116 | For every well-formed node tree that encodes, decoding its bytes followed by any others yields exactly its norm and leaves those others unread; the decoder refuses it exactly when some string is a JID pair with an empty server |
| `NodeCanonical.NormIdempotent` | crates/wa-binary/src/codec.rs:152-183 | What comes back is a fixed point: normalising a tree twice is normalising it once, even when attribute keys merge |
| `NodeCanonical.NormStringIdempotent` | crates/wa-binary/src/codec.rs:409-433 | The same for one string, and normalising neither creates nor cures a pair without a server |
| `NodeCanonical.NormAttrsLookup` | crates/wa-binary/src/codec.rs:274-282 | When the normalised keys of several attributes collide, the one written last is the one that comes back |
| `NodeCanonical.CanonicalStringIff` | crates/wa-binary/src/codec.rs:165-178 | A string survives the round trip unchanged if and only if it has no `@`, or is `user@server` with a plain user and a non-empty server, or is `user:d@server` with canonical `d` below 256 on one of the four device servers |
| `NodeCanonical.CanonicalIff` | crates/wa-binary/src/codec.rs:84-183 | A tree survives the round trip unchanged if and only if all its strings are canonical and no text content takes the raw form |
| `NodeCanonical.CanonicalRoundTrip` | crates/wa-binary/src/codec.rs:56-67 | On canonical trees decoding a frame, with or without trailing bytes, returns the tree |
| `NodeCanonical.FrameRoundTrip` | crates/wa-binary/src/codec.rs:56-82 | For all trees: the decoded frame is the norm, or `InvalidJidPair` |
| `NodeCanonical.UniquelyDecodable` | crates/wa-binary/src/codec.rs:84-116 | No encoding is a prefix of, or equal to, that of a tree with a different norm; on canonical trees encoding is injective |
| `NodeCanonical.EncodeNormString` | crates/wa-binary/src/codec.rs:152-183 | Writing a normalised string gives the bytes of the string it came from |
| `NodeReencode.ReencodeIff` | crates/wa-binary/src/codec.rs:84-116 | Writing what was read gives the original bytes if and only if no node’s attributes merged or changed order under normalisation |
| `NodeReencode.NormGood` | crates/wa-binary/src/codec.rs:264-307 | What comes back from a readable tree is well formed and readable again |
| `NodeRoundTrip.StringRead` | crates/wa-binary/src/codec.rs:383-407 | The reader recovers from the tag byte alone which of the writer’s forms a string took, and returns its normalised value |
| `NodeRoundTrip.PackedRead` | crates/wa-binary/src/codec.rs:197-228 | Both 4-bit packings read back exactly, for odd and even lengths, whatever follows |
| `NodeRoundTrip.UnpackPack` | crates/wa-binary/src/codec.rs:244-262 | Unpacking one packed character returns it, for both alphabets |
| `NodeRoundTrip.RawRead` | crates/wa-binary/src/codec.rs:185-189 | A raw string of any encodable length reads back |
| `NodeRoundTrip.LengthHeaderRead` | crates/wa-binary/src/codec.rs:133-150 | The three length headers read back the length |
| `NodeRoundTrip.ListHeaderRead` | crates/wa-binary/src/codec.rs:118-131 | The three list headers read back the size |
| `NodeRoundTrip.AdJidStringRead` | crates/wa-binary/src/codec.rs:420-433 | The device form comes back with the device cut to one byte and the server of its domain |
| `NodeRoundTrip.JidPairStringRead` | crates/wa-binary/src/codec.rs:409-418 | The pair form comes back as user and raw server, or is refused when the server is empty |
| `NodeWire.ReadsExactly` | crates/wa-binary/src/codec.rs:383-450 | The reader of strings accepts exactly what a grammar of literal bytes derives, with the value that it derives, and leaves the rest: 0, tokens, 252 to 254, 251 and 255 with their alphabets, 250, and 247 with the domain bytes 1 for lid, 128 for hosted, 129 for hosted.lid and every other for s.whatsapp.net |
| `NodeWire.WrittenSpelled` | crates/wa-binary/src/codec.rs:152-183 | What is written for a readable string is derived by that grammar, with the string that comes back |
| `NodeWire.FirstByte` | crates/wa-binary/src/codec.rs:152-183 | Which form a string takes, by its first byte: tokens first, then digits with `-` and `.`, then digits with `A` to `F`, then addresses, then raw |
| `NodeWire.RawWritten` | crates/wa-binary/src/codec.rs:133-150 | A raw string has the shortest of the three lengths in front and is refused from 2^32 - 1 bytes on |
| `NodeWire.DeviceWritten` | crates/wa-binary/src/codec.rs:166-171 | For every plain user, agent, 16-bit device and server text: `user_agent:device@server` is written as 247, the domain byte of the server or else of the agent, the low byte of the device and the user |
| `NodeWire.PairWritten` | crates/wa-binary/src/codec.rs:172-180 | Without a device: 250, the user or 0, and the raw text of the server |
| `NodeWire.AddressPrinted` | crates/wa-binary/src/jid.rs:131-142 | An address is printed as user, `_` and agent, `:` and device, `@` and server |
| `NodeGrammar.NodeExactly` | crates/wa-binary/src/codec.rs:264-307 | The reader of nodes accepts exactly what a grammar of literal bytes derives, with that tree and the last value of every repeated key, and leaves the rest |
| `NodeGrammar.FrameExactly` | crates/wa-binary/src/codec.rs:63-82 | A frame is read as a node if and only if what follows its flags, inflated when bit 1 is set, begins with what spells the node |
| `NodeGrammar.FrameWritten` | crates/wa-binary/src/codec.rs:56-61 | What is written for a readable tree is a zero byte and what spells the tree that comes back |
| `NodeGrammar.HeadWritten` | crates/wa-binary/src/codec.rs:118-131 | The size of a list is written in the shortest form, below 2^16 |
| `NodeErrors.TreeErrors` | crates/wa-binary/src/codec.rs:84-183 | Writing a tree fails only for an empty tag, or for a size that no header can say and that the error tells; packing never fails |
| `NodeErrors.StringRefused` | crates/wa-binary/src/codec.rs:383-407 | Which first bytes begin no string, and when the stream has ended |
| `NodeErrors.RawRefused` | crates/wa-binary/src/codec.rs:373-381 | Bytes that are announced but not there, or are not UTF-8, are refused as that |
| `NodeErrors.PairRefused` | crates/wa-binary/src/codec.rs:409-418 | An address with an empty server is refused, however its parts are spelled |
| `NodeErrors.NodeRefused` | crates/wa-binary/src/codec.rs:264-270 | What does not begin with a list is refused with its first byte |
| `NodeErrors.UntaggedRefused` | crates/wa-binary/src/codec.rs:268-270 | An empty list and an empty tag are no node |
| `NodeDecoding.NodeCost` | crates/wa-binary/src/codec.rs:264-307 | For every byte input: a decoded tree of N nodes consumed at least 3N bytes |
| `NodeDecoding.DecodedWellFormed` | crates/wa-binary/src/codec.rs:264-307 | Every decoded tree is well formed: UTF-8 strings and attributes in strictly increasing key order |
| `NodeDecoding.DispatchedNode` | crates/wa-core/src/router.rs:32-42 | A decoded node that is written again for a waiting query is read by it as the norm of the node, or not at all |
| `NodeDispatch.NodeFitsIff` | crates/wa-binary/src/codec.rs:84-183 | A node can be written if and only if it has its tags, no list is longer than a list header can say, and every piece that is not a token is shorter than 2^32 - 1 bytes; for all nodes |
| `NodeDispatch.DispatchArrives` | crates/wa-core/src/router.rs:32-42 | A decoded node can be written again for a waiting query if and only if every piece of it fits a length header, which is so for every body of fewer than 2^32 / 48 bytes; the query then reads its norm, or an error exactly when a string is a JID without a server |
| `NodeDispatch.UnwritableArrives` | crates/wa-binary/src/codec.rs:133-136 | A payload that decodes to a node with an id and 2^32 - 1 bytes of content, which the 32-bit header of the reader takes and the writer refuses |
| `NodeDispatch.StringPaid` | crates/wa-binary/src/codec.rs:383-450 | No string read is more than 48 times as long as the bytes it was read from |
| `NodeDecoding.UnreadableArrives` | crates/wa-binary/src/codec.rs:383-418 | A string that the decoder accepts but that can no longer be decoded once it is written again |
| `NodeCodec.EncodeBinaryNode` | crates/wa-binary/src/codec.rs:56-61 | The encoder as a program over a growing buffer produces the specified frame or the specified error |
| `NodeCodec.Writer.EncodeTree` | crates/wa-binary/src/codec.rs:84-116 | Appends the specified bytes of a tree to the buffer, or fails with the specified error |
| `NodeCodec.Writer.WriteString` | crates/wa-binary/src/codec.rs:152-183 | The priority chain appends the bytes of the specified form |
| `NodeCodec.Writer.WritePacked` | crates/wa-binary/src/codec.rs:197-228 | The packing loop appends the specified packed bytes |
| `NodeCodec.Writer.WriteByteLength` | crates/wa-binary/src/codec.rs:133-150 | Appends the specified length header |
| `NodeCodec.Writer.WriteListStart` | crates/wa-binary/src/codec.rs:118-131 | Appends the specified list header |
| `NodeCodec.DecodeBinaryNode` | crates/wa-binary/src/codec.rs:63-82 | The decoder as a program over a cursor returns what the format specifies, for every byte input |
| `NodeCodec.Cursor.DecodeTree` | crates/wa-binary/src/codec.rs:264-307 | Advances the cursor exactly past one tree, never past the end, and terminates on the bytes left |
| `NodeCodec.Cursor.ReadString` | crates/wa-binary/src/codec.rs:383-407 | Reads one string form and advances exactly past it |
| `NodeCodec.Cursor.ReadPacked` | crates/wa-binary/src/codec.rs:435-450 | The unpacking loop reads exactly the announced bytes |
| `NodeCodec.Cursor.ReadBinary` | crates/wa-binary/src/codec.rs:373-381 | Reads a length of one of the three widths and that many bytes, or fails at the end of input |
| `NodeFormat.DecodeNode` | crates/wa-binary/src/codec.rs:264-307 | Reading any byte string terminates and leaves strictly fewer bytes |
| `Tokens.TokenFor` | crates/wa-binary/src/tokens.rs:1283-1305 | Finds a token exactly when one of the tables has the value, and then a position that holds it |
| `Tokens.TokenHasNoAt` | crates/wa-binary/src/tokens.rs:1283-1305 | No token is a JID |
| `TextMeaning.Utf8Iff` | crates/wa-binary/src/codec.rs:400-402 | Text is exactly what a sequence of Unicode scalar values encodes to (section 3 of RFC 3629) |
| `TextMeaning.LessIff` | crates/wa-binary/src/codec.rs:94-97 | The order of attribute keys: the lower byte at the first difference, or the proper prefix, comes first |
| `BigEndian.ByteAt` | crates/wa-crypto/src/app_state.rs:131-132 | Byte `i` of a number counts the powers of 256 left after it |
| `Jid.PrintParse` | crates/wa-binary/src/jid.rs:131-168 | Printing then parsing returns all parts if and only if the user has none of `@`, `:`, `_`; for every server and all u16 devices and agents |
| `Jid.NormalizeLaws` | crates/wa-binary/src/jid.rs:171-179 | Normalising any string with `@` keeps the user, drops device and agent, removes `c.us` and is idempotent |
| `Jid.NormalizedSpelled` | crates/wa-binary/src/jid.rs:171-179 | For every string with an `@`: the user stays, what follows it up to the `@` goes, `c.us` becomes `s.whatsapp.net`, each other known server stays and an unknown one is dropped |
| `Jid.Assembled` | crates/wa-binary/src/jid.rs:144-153 | Every string with an `@` is a plain user, a suffix that begins with a separator or is empty, and a server |
| `Jid.KnownIff` | crates/wa-binary/src/jid.rs:66-80 | Exactly the ten names of the list are known |
| `Jid.SameUserIsUserEquality` | crates/wa-binary/src/jid.rs:182-186 | Two printed JIDs are of the same user exactly when their user parts are equal |
| `Jid.ServerNameRoundTrip` | crates/wa-binary/src/jid.rs:49-80 | Server names parse back to their server |
| `Jid.ParsedUserPlain` | crates/wa-binary/src/jid.rs:144-153 | A parsed user never contains a separator |
| `LtHash.AddAssoc` | crates/wa-crypto/src/app_state.rs:212-229 | Adding expansions is associative on the 64 wrapping 16-bit words |
| `LtHash.AddThenSub` | crates/wa-crypto/src/app_state.rs:212-229 | Subtracting an expansion undoes adding it |
| `LtHash.SubThenAdd` | crates/wa-crypto/src/app_state.rs:212-229 | Adding an expansion undoes subtracting it |
| `LtHash.WordsAdd` | crates/wa-crypto/src/app_state.rs:212-229 | Each word of a sum, least significant byte first, is the sum of the two words modulo 2^16 |
| `AppCrypto.DecryptEncrypt` | crates/wa-crypto/src/app_state.rs:92-109 | Decrypting a sealed value under the same keys returns the plaintext |
| `PatchWire.KeysExpanded` | crates/wa-crypto/src/app_state.rs:75-90 | 32 bytes of key data expand to 160, which are the keys for index MAC, encryption, value MAC, snapshot MAC and patch MAC in this order |
| `PatchWire.EncryptedIff` | crates/wa-core/src/app_state.rs:904-958 | When a chat patch can be encrypted |
| `PatchWire.EncryptedRecord` | crates/wa-core/src/app_state.rs:904-958 | The bytes of the record it is encrypted to: initialisation vector and ciphertext under key 1, index MAC under key 0, value MAC of operation 1 or 2, key id, ciphertext and a 64-bit length under key 2, and operation 0 or 1 |
| `PatchWire.RecordHolds` | crates/wa-core/src/app_state.rs:2624-2712 | A mutation is read as given parts if and only if it holds exactly their bytes, authentic under those keys; no operation means Set |
| `AppCrypto.MutationFrameInjective` | crates/wa-crypto/src/app_state.rs:188-210 | The bytes under the value MAC determine operation, ciphertext and key id |
| `AppCrypto.SnapshotFrameInjective` | crates/wa-crypto/src/app_state.rs:124-136 | The bytes under the snapshot MAC determine hash, version and collection |
| `AppCrypto.PatchFrameInjective` | crates/wa-crypto/src/app_state.rs:138-165 | The bytes under the patch MAC determine snapshot MAC, every value MAC, version and collection, although no count or length is written |
| `Base64.RoundTrip` | crates/wa-core/src/app_state.rs:2602-2605 | Every byte string decodes from its base64 text (section 4 of RFC 4648) |
| `Base64.Spelled` | crates/wa-core/src/app_state.rs:2602-2605 | The text of any bytes, group by group: six bits a character, most significant first, `A` to `Z`, `a` to `z`, `0` to `9`, `+`, `/`, and `=` for what is missing |
| `Base64.DecodesExactly` | crates/wa-core/src/app_state.rs:2866-2868 | A text decodes to bytes if and only if it is their text |
| `Base64.EncodeInjective` | crates/wa-core/src/app_state.rs:1294-1302 | Different key ids have different store ids |
| `PatchState.Conservation` | crates/wa-core/src/app_state.rs:751-790 | For every state and every list of mutations, repeated sets and removals of absent indexes included, hash minus the sum of all stored value MACs is unchanged |
| `PatchState.ApplyConsistent` | crates/wa-core/src/app_state.rs:751-790 | A list of mutations leaves the hash equal to that sum exactly if it was before |
| `PatchState.RunConsistent` | crates/wa-core/src/app_state.rs:740-749 | Over a chain of patches the version counts them and consistency neither appears nor disappears |
| `PatchState.SnapshotIsReplay` | crates/wa-core/src/app_state.rs:1172-1183 | Rebuilding from the final map’s entries, in any order, at the final version gives the very state that the chain of patches reached |
| `PatchState.RecordsExist` | crates/wa-core/src/app_state.rs:698-719 | Every storable map has such a list of entries |
| `PatchState.ApplyValid` | crates/wa-core/src/app_state.rs:751-790 | Mutations with MACs of the right length never fail and keep every entry storable |
| `PatchState.ApplyHolds` | crates/wa-core/src/app_state.rs:751-790 | For every state, list of mutations and key: the last mutation about the key decides what is stored under it, a Set its value MAC, a Remove nothing, and without one it keeps what it had; it fails exactly for an index MAC of a wrong length |
| `PatchContents.AcceptedMap` | crates/wa-core/src/app_state.rs:1044-1138 | The same of the state after an accepted patch, told from the records it was read as |
| `PatchContents.SnapshotMap` | crates/wa-core/src/app_state.rs:1141-1200 | A snapshot holds the last value MAC of each index it has a record for, and no other index |
| `PatchContents.BundleMap` | crates/wa-core/src/app_state.rs:971-1041 | The same of the state that a bundle leads to, whatever it was built from: operation 0 stores, operation 1 removes |
| `PatchState.ApplyHashMutations` | crates/wa-core/src/app_state.rs:751-790 | The loop over a copied map and two lists computes the specified state or error; the map is as `ApplyHolds` says and hash minus sum is conserved |
| `PatchState.SubtractThenAdd` | crates/wa-crypto/src/app_state.rs:167-186 | The two hash loops compute subtract-then-add over the lists |
| `StateBytes.StateRoundTrip` | crates/wa-core/src/app_state.rs:2856-2937 | Every well-formed state with fewer than 2^32 entries is stored and loaded back exactly |
| `StateBytes.BlockedRoundTrip` | crates/wa-core/src/app_state.rs:2939-3000 | The same for blocked records |
| `StateBytes.StatePrefixFree` | crates/wa-core/src/app_state.rs:2887-2936 | Every proper extension and every proper prefix of an accepted encoding is rejected |
| `StateBytes.BlockedPrefixFree` | crates/wa-core/src/app_state.rs:2957-3000 | The same for blocked records |
| `StateLayout.StateExactly` | crates/wa-core/src/app_state.rs:2887-2937 | Bytes are read as a state if and only if they are `ASPS`, 1, the version in 8 bytes, the hash, the number and the entries with their lengths in 4 bytes each, of a hash of 128 and MACs of 32 bytes; the later of two entries for an index counts |
| `StateLayout.StateWritten` | crates/wa-core/src/app_state.rs:2856-2884 | A state is written as that layout, with the entries of its map in order |
| `StateLayout.BlockedExactly` | crates/wa-core/src/app_state.rs:2957-3000 | Bytes are read as a blocked record if and only if they are `ASBK`, 1, the version and a key id that is not empty |
| `StateLayout.BlockedWritten` | crates/wa-core/src/app_state.rs:2939-2955 | A blocked record is written as that layout, if it has a key id |
| `StateBytes.DecodeStateBytes` | crates/wa-core/src/app_state.rs:2887-2937 | The offset-moving reader returns what the format specifies for every byte input |
| `StateBytes.EncodeStateBytes` | crates/wa-core/src/app_state.rs:2856-2884 | The writing loop produces the specified bytes or error |
| `StateBytes.Reader.Exact` | crates/wa-core/src/app_state.rs:3040-3057 | Takes exactly the bytes asked for or fails, and never moves past the end |
| `StateBytes.BuildMacs` | crates/wa-core/src/app_state.rs:698-719 | Inserts validated entries one by one; a later entry for an index replaces an earlier one |
| `Events.InitialSyncOmitsDeletes` | crates/wa-core/src/app_state.rs:1682-1753 | The initial-sync batch is the ordinary one without its chat deletions if and only if no mutation reaches chat deletion in the chain of actions and also stars a message |
| `Events.StarInsteadOfDelete` | crates/wa-core/src/app_state.rs:1738-1750 | A mutation that deletes a chat when reported later, and stars a message when reported during the initial sync |
| `Events.JoinAssoc` | crates/wa-core/src/app_state.rs:1218-1230 | Joining event batches is associative |
| `Events.EventsSensible` | crates/wa-core/src/app_state.rs:1682-1888 | A mutation reports at most one event, and that event is about the chat, contact, label or message that its index names |
| `EventFields.ContactReported` | crates/wa-core/src/app_state.rs:1756-1787 | A contact, before every other action: deleted, or reported with the first usable name, the user name, the LID and the phone number, or an error when an address is none |
| `EventFields.ReplyReported` | crates/wa-core/src/app_state.rs:1790-1817 | A quick reply with exactly the fields that the action holds, unless there is a contact |
| `EventFields.LabelReported` | crates/wa-core/src/app_state.rs:1820-1856 | A label with exactly the nine fields that the action holds, after contacts and quick replies |
| `EventFields.AssociationReported` | crates/wa-core/src/app_state.rs:1859-1888 | A label is put on or taken off the chat or message that the index names, by the first part of the index |
| `EventFields.ArchiveReported` | crates/wa-core/src/app_state.rs:1701-1706 | The chat is archived exactly if the action says so; next in the chain |
| `EventFields.ReadReported` | crates/wa-core/src/app_state.rs:1707-1716 | A chat marked as read has unread count 0, otherwise -1 |
| `EventFields.MuteReported` | crates/wa-core/src/app_state.rs:1717-1724 | Muted, and until when if the action says |
| `EventFields.PinReported` | crates/wa-core/src/app_state.rs:1725-1738 | Pinned with the time of the action, `true` without one, `false` when not pinned |
| `EventFields.DeleteReported` | crates/wa-core/src/app_state.rs:1739-1741 | Outside the initial sync the chat is deleted, whatever is starred |
| `EventFields.StarReported` | crates/wa-core/src/app_state.rs:1742-1750 | Otherwise the message is starred or not, as the action says |
| `EventFields.NothingReported` | crates/wa-core/src/app_state.rs:1687-1692 | No value is an error, and an action of none of these kinds reports nothing |
| `EventFields.BlankIff` | crates/wa-core/src/app_state.rs:2807-2843 | A part is blank if and only if it is made of Unicode white space |
| `EventFields.InitialDeletesNothing` | crates/wa-core/src/app_state.rs:1739-1741 | What is reported during the initial sync deletes no chat |
| `PatchProtocol.ConstantTimeEqIsEquality` | crates/wa-core/src/app_state.rs:2745-2753 | Accumulating the differences of all bytes decides equality |
| `PatchProtocol.NamesDiffer` | crates/wa-core/src/app_state.rs:72-82 | Collection names are non-empty, pairwise different and shorter than a MAC |
| `PatchWire.NamesSpelled` | crates/wa-core/src/app_state.rs:72-82 | The names, letter by letter |
| `PatchProtocol.CheckHeader` | crates/wa-core/src/app_state.rs:1050-1083 | A patch that passes the first checks has mutations, the next version, a key id and two MACs of 32 bytes |
| `PatchTheorems.RecordRoundTrip` | crates/wa-core/src/app_state.rs:904-958 | A record encrypted under a key decodes under it to the same operation, index, action, key id and MACs |
| `PatchTheorems.RecordAuthentic` | crates/wa-core/src/app_state.rs:2641-2712 | A record is read if and only if its value MAC authenticates operation, ciphertext and key id, it decrypts, and its index MAC is that of the index inside; what is read is then determined |
| `PatchTheorems.ValueMacBinds` | crates/wa-core/src/app_state.rs:2672-2681 | Two records read under the same keys with one value MAC agree on operation, ciphertext, key id and so on action and index, unless their two named frames collide |
| `PatchTheorems.BundleContents` | crates/wa-core/src/app_state.rs:971-1041 | Whatever was encrypted, a bundle that is built holds the given mutations in order, all of one non-empty key id, at the next version |
| `PatchWire.BundleBuiltIff` | crates/wa-core/src/app_state.rs:971-1041 | Exactly when a bundle can be built, from any mutations |
| `PatchWire.BundleSealed` | crates/wa-core/src/app_state.rs:971-1041 | The bytes under its two MACs: hash, version and name under key 3; snapshot MAC, value MACs in order, version and name under key 4 |
| `PatchTheorems.BundleAccepted` | crates/wa-core/src/app_state.rs:971-1041 | A bundle of patches encrypted under one key can be built exactly when there is one and the version does not overflow; the decoder then accepts it on the same previous state, with an equal next state and the same mutations in order |
| `PatchTheorems.AcceptedParts` | crates/wa-core/src/app_state.rs:1044-1138 | Everything an accepted patch is known to satisfy: consecutive version, one key id, both MACs over the very mutations, and the state they lead to |
| `PatchTheorems.AcceptedExactly` | crates/wa-core/src/app_state.rs:1044-1138 | A patch is accepted as a given result if and only if it has mutations, follows the previous version, every mutation is read and names the patch’s key, and both MACs are those of these mutations and of the state they lead to |
| `PatchWire.AcceptedSealed` | crates/wa-core/src/app_state.rs:1044-1138 | The same bytes under the MACs of an accepted patch, of the very records that were read |
| `PatchTheorems.AcceptedKeepsInvariants` | crates/wa-core/src/app_state.rs:1044-1138 | An accepted patch moves the version by one, keeps entries storable, and keeps or lacks consistency as before |
| `PatchTheorems.DivergenceDetected` | crates/wa-core/src/app_state.rs:1121-1129 | A patch accepted on one state is rejected, at the snapshot MAC, on every state with the same version and map but another hash, unless the MAC function maps the two named, different frames to one output |
| `PatchTheorems.PatchMacBinds` | crates/wa-core/src/app_state.rs:1097-1109 | Two patches accepted under one key with one patch MAC agree on collection, version, snapshot MAC and all value MACs, unless their two named frames collide |
| `PatchTheorems.SnapshotConsistent` | crates/wa-core/src/app_state.rs:1141-1199 | An accepted snapshot is a consistent, storable state at its own version |
| `PatchTheorems.SnapshotReplaces` | crates/wa-core/src/app_state.rs:1172-1183 | A snapshot of exactly what a chain of patches left is that chain’s state |
| `PatchTheorems.SnapshotExactly` | crates/wa-core/src/app_state.rs:1141-1199 | A snapshot is accepted as a given result if and only if its records are read under its one key and its MAC is that of the state rebuilt from them |
| `PatchWire.SnapshotSealed` | crates/wa-core/src/app_state.rs:1141-1200 | And under the MAC of an accepted snapshot |
| `PatchTheorems.LocalEcho` | crates/wa-core/src/app_state.rs:1233-1254 | Batches derived from the local patches, joined in order, equal the batch derived from the decoded mutations, errors included, for either initial-sync flag |
| `PatchTheorems.BundleEcho` | crates/wa-core/src/app_state.rs:1203-1254 | The same from end to end: what a device reports from a decoded bundle is what the sender reported from its own patches |
| `Store.NextPages` | crates/wa-client/examples/custom_auth_store.rs:54-80 | Whatever happens to keys of a page or before it, the rest of the listing is what follows the page |
| `Store.ShortPageIsLast` | crates/wa-client/examples/custom_auth_store.rs:54-80 | After a page that is not full every later page is empty |
| `Store.AuthStore.ListKeys` | crates/wa-client/examples/custom_auth_store.rs:54-80 | Returns the first keys of the namespace after the given one, in ascending order, at most the limit |
| `Store.AuthStore.Sweep` | crates/wa-core/src/tctoken.rs:461-526 | Paging with any batch size visits every key of a namespace exactly once in order, while the entries visited are being deleted or rewritten, and leaves each entry as the rule says |
| `Store.AuthStore.Get` | crates/wa-client/examples/custom_auth_store.rs:33-35 | Looks up one namespaced key |
| `Store.AuthStore.Set` | crates/wa-client/examples/custom_auth_store.rs:37-44 | Changes one entry and nothing else |
| `Store.AuthStore.Delete` | crates/wa-client/examples/custom_auth_store.rs:46-52 | Removes one entry and nothing else |
| `SyncStore.SaveThenLoad` | crates/wa-core/src/app_state.rs:1257-1291 | A saved state is loaded back |
| `SyncStore.LoadedState` | crates/wa-core/src/app_state.rs:1257-1271 | Whatever bytes are stored, a state that loads is well formed |
| `SyncStore.SaveKeyThenLoad` | crates/wa-core/src/app_state.rs:1314-1355 | A saved sync key is found, and saving it neither hides nor changes any other |
| `SyncStore.SaveThenLoadBlocked` | crates/wa-core/src/app_state.rs:1358-1391 | A saved blocked record is loaded back |
| `SyncStore.OthersUntouched` | crates/wa-core/src/app_state.rs:1539-1565 | Writing one collection’s state and blocked record changes no sync key and no other collection |
| `SyncLayout.StateSaved` | crates/wa-core/src/app_state.rs:1274-1292 | A state goes under the name of its collection, in its layout, and nothing else changes |
| `SyncLayout.StateLoaded` | crates/wa-core/src/app_state.rs:1257-1272 | What is loaded is the state laid out there, or version 0 with a zero hash and no entries when nothing is |
| `SyncLayout.BlockedSaved` | crates/wa-core/src/app_state.rs:1358-1406 | The same for blocked records, and deleting one |
| `SyncLayout.BlockedLoaded` | crates/wa-core/src/app_state.rs:1377-1392 | Which record is loaded |
| `SyncLayout.KeySaved` | crates/wa-core/src/app_state.rs:1331-1356 | A key goes under the base64 text of its id |
| `SyncLayout.KeyLoaded` | crates/wa-core/src/app_state.rs:1314-1329 | When a key is there, and that a missing one is no error |
| `Sync.StepExplained` | crates/wa-core/src/app_state.rs:1634-1655 | One patch either fails and changes nothing, or parks the collection with the missing key’s id and the current version, or stores exactly one verified next state |
| `Sync.RunExplained` | crates/wa-core/src/app_state.rs:1628-1655 | When a run over patches stops, for whatever reason, the stored state is the fold of the first patches, all verified; it stopped early exactly when a key was missing or something failed |
| `Sync.SnapshotReplacesStored` | crates/wa-core/src/app_state.rs:1554-1565 | An accepted snapshot replaces whatever was stored with its own consistent state and clears the blocked record; the stored version goes back if and only if the snapshot’s is below it |
| `Sync.SnapshotCanGoBack` | crates/wa-core/src/app_state.rs:1554-1565 | Whatever is stored, and under any key, there is an accepted snapshot for every lower version |
| `SyncResume.SplitRun` | crates/wa-core/src/app_state.rs:1628-1655 | A run over patches is a run over the first of them and then over the rest |
| `SyncResume.ResumeSteps` | crates/wa-core/src/app_state.rs:1618-1679 | For any step that ignores added keys and leftover records, a blocked run continued with more keys is the uninterrupted run |
| `SyncResume.ResumeIsWhole` | crates/wa-core/src/app_state.rs:1618-1679 | The same for the actual step, also when stored keys arrive again, as long as no key of a patch already applied changes: same end, state and batches; only a first patch that fails can leave the blocked record behind |
| `SyncKeys.BlockAndResume` | crates/wa-core/src/app_state.rs:1618-1679 | Applying what a blocked update left over, once keys have arrived, new ones or stored ones again, gives the store, batches, version and outcome of the whole update applied with those keys |
| `SyncKeys.ShareAndResume` | crates/wa-core/src/app_state.rs:1522-1536 | From end to end: an update blocks, a key share is saved, it names the collection exactly if it has the missing key, and applying what was left over gives what the whole update after the share would have given |
| `SyncResponse.ExitIsPrefix` | crates/wa-core/src/app_state.rs:1628-1676 | At every exit from one collection entry, errors included, its stored state is the fold of a prefix of its verified patches, and nothing but its own two entries has changed |
| `SyncResponse.ReportsHonest` | crates/wa-core/src/app_state.rs:1628-1676 | The reported final version is the loaded version plus the patches applied; patches are left over exactly when the collection blocks, and the blocked record holds that version and the key id of the first one left over; a snapshot reference is listed as pending exactly if there is one and the collection did not block |
| `SyncEvents.RunReports` | crates/wa-core/src/app_state.rs:1634-1655 | However a run over one collection’s patches ends, the batches it has collected, joined in order, are the events of exactly the patches applied, and none of them is empty; whether they come back is `SyncReturns.EventsReachIff` |
| `SyncEvents.BatchesInOrder` | crates/wa-core/src/app_state.rs:1218-1230 | Events come in the order of the mutations, list by list |
| `SyncEvents.OneRecord` | crates/wa-core/src/app_state.rs:1218-1230 | A record reports what its operation, index and action report, or its error |
| `SyncEvents.SnapshotReports` | crates/wa-core/src/app_state.rs:1554-1565 | A stored snapshot reports its records as during the initial sync |
| `SyncResponse.ResponseSafe` | crates/wa-core/src/app_state.rs:1568-1679 | However a response ends, no collection goes back, none loses the agreement of hash and map, and unmentioned ones stay as they were |
| `SyncWhole.ResponseFolds` | crates/wa-core/src/app_state.rs:1568-1679 | At every exit of a whole response, errors included and however often it mentions a collection, the stored state of every collection is the fold of the first patches of its entries, in order, over the state stored before |
| `SyncWhole.ResponseIsPrefix` | crates/wa-core/src/app_state.rs:1568-1679 | An entry whose collection no other entry mentions leaves the fold of a prefix of its own patches over the state stored before the response, at every exit |
| `SyncWhole.ResponseReports` | crates/wa-core/src/app_state.rs:1618-1679 | A response applied without failure, however often it mentions a collection, reports every entry in order, and each report holds of the stores before and after its entry: versions, patches applied, blocked record, missing key and pending snapshot |
| `SyncWhole.LoneReports` | crates/wa-core/src/app_state.rs:1618-1679 | When no other entry mentions its collection, the report also holds of the stores before and after the whole response |
| `SyncReturns.ResponseCollects` | crates/wa-core/src/app_state.rs:1618-1679 | However a response ends and however often it mentions a collection, the batches collected, joined in order, are the events of exactly the patches stored, entry by entry, and none is empty |
| `SyncReturns.ResponseReportsEvents` | crates/wa-core/src/app_state.rs:1618-1679 | A response applied without failure returns all of them |
| `SyncReturns.ResponseFailsIff` | crates/wa-core/src/app_state.rs:1568-1679 | A response fails if and only if, told from its entries and the store before it, it comes to a collection that does not load or to a patch that fails |
| `SyncReturns.EventsReachIff` | crates/wa-core/src/app_state.rs:1588-1601 | The events of the patches that a response has stored come back to its caller if and only if the response does not fail, in that sense, or they are none |
| `SyncReturns.LostForGood` | crates/wa-core/src/app_state.rs:1060-1069 | Applying an entry that got a patch through once more, to the store that the response has left however it ended, fails on the first patch and changes nothing |
| `SyncReturns.RepeatLoses` | crates/wa-core/src/app_state.rs:1588-1601 | For every entry that succeeds and gets a patch through: a response with that entry twice leaves the same store and returns an error and no events |
| `SyncResponse.ReapplyFails` | crates/wa-core/src/app_state.rs:1060-1069 | Applying a collection’s patches again, once any was applied, fails on the first with the version error and leaves the store exactly as it was |
| `SyncKeys.KeyShareExact` | crates/wa-core/src/app_state.rs:1522-1536 | A key share returns exactly the collections that waited for one of its keys; each key is now there with the last data shared; no state or record changed |
| `SyncKeys.UnblockedExact` | crates/wa-core/src/app_state.rs:1436-1453 | The scan of the whole store returns exactly the blocked collections whose key is there |
| `SyncKeys.ShareThenScan` | crates/wa-core/src/app_state.rs:1408-1453 | What a key share returns, the scan returns too |
| `SyncLoop.ApplyResponse` | crates/wa-core/src/app_state.rs:1618-1679 | The loop over collections leaves the specified store and returns the specified summary or error, for both sources of keys |
| `SyncLoop.ApplyCollection` | crates/wa-core/src/app_state.rs:1628-1676 | One collection: load, apply, conclude, as specified |
| `SyncLoop.TakePatches` | crates/wa-core/src/app_state.rs:1634-1655 | The patch loop stops where and as the specification does |
| `SyncLoop.TakePatch` | crates/wa-core/src/app_state.rs:1635-1654 | One patch against the store is one specified step |
| `SyncLoop.CollectEvents` | crates/wa-core/src/app_state.rs:1218-1230 | The loop over mutations builds the specified batch or stops with its error |
| `SyncLoop.ApplyDecodedPatch` | crates/wa-core/src/app_state.rs:1539-1551 | Derives events before it stores anything, so an event error leaves the store alone |
| `SyncLoop.ApplyDecodedSnapshot` | crates/wa-core/src/app_state.rs:1554-1565 | The same for snapshots |
| `SyncLoop.SaveShare` | crates/wa-core/src/app_state.rs:1522-1536 | Saves keys until one cannot be saved, then lists the collections that waited |
| `SyncLoop.LoadBlockedFor` | crates/wa-core/src/app_state.rs:1408-1433 | Lists the blocked collections of some key ids in collection order |
| `Queries.RegisterKeeps` | crates/wa-core/src/query.rs:38-66 | Registering keeps the table invariant, also when a refused registration has replaced the entry and still holds its receiving end |
| `Queries.ResolveKeeps` | crates/wa-core/src/query.rs:68-77 | Resolving a tag answers at most the one query that holds it |
| `Queries.DrainKeeps` | crates/wa-core/src/query.rs:79-88 | Draining wakes every query in the table |
| `Queries.LeaveKeeps` | crates/wa-core/src/query.rs:141-156 | Dropping a waiter removes whatever entry its tag has |
| `Queries.MoveKeeps` | crates/wa-core/src/connection.rs:99-119 | A query that moves between its suspension points keeps the table invariant |
| `ConnectionSafety.StepKeeps` | crates/wa-core/src/connection.rs:99-251 | Every step of every query, sender, closer, outbound and inbound task keeps the invariant |
| `ConnectionSafety.ReachableIsGood` | crates/wa-core/src/connection.rs:99-251 | Hence it holds in every state that any interleaving reaches |
| `ConnectionSafety.SinkIsPrefix` | crates/wa-core/src/connection.rs:183-210 | Frames handed to the sink are a prefix, in order, of those enqueued before the first close |
| `ConnectionTheorems.NoQueryStranded` | crates/wa-core/src/connection.rs:135-138 | Once some closer has drained the table, every waiting query can finish, and what is left in the table belongs to queries that have not passed the closed flag or are giving up |
| `ConnectionTheorems.ClosedTurnsAway` | crates/wa-core/src/connection.rs:99-119 | A query that has not read the flag when it is set can, over every further run, end only with an error, and never sends |
| `ConnectionTheorems.AnswersBelong` | crates/wa-core/src/connection.rs:212-233 | An answer is a received frame that carries the query’s tag, goes to that query only, and is not also reported as an event |
| `ConnectionTheorems.AnswersWereAsked` | crates/wa-core/src/connection.rs:99-119 | In every interleaving, a query that waits or has been answered has enqueued its own request |
| `ConnectionTheorems.FramesAccounted` | crates/wa-core/src/connection.rs:212-233 | Every frame the inbound loop has finished with was handed to one query, one whose registration was refused included, or was reported once in order, or was lost with the loop |
| `ConnectionEvents.EventKinds` | crates/wa-core/src/connection.rs:225-231 | In every reachable state: a frame is reported as a node if and only if it went to the events and decodes to a node, and as a raw frame if and only if it does not decode |
| `ConnectionEvents.EventOfPayload` | crates/wa-core/src/router.rs:32-46 | The same, of the payload of the frame |
| `ConnectionEvents.OwnTagFirst` | crates/wa-core/src/connection.rs:219-223 | A frame goes first to the query that awaits its own tag |
| `ConnectionEvents.ThenByNode` | crates/wa-core/src/connection.rs:219-225 | If nobody does, it is looked at for its node’s id, and nothing else has happened |
| `ConnectionEvents.NodeAnswers` | crates/wa-core/src/router.rs:36-42 | A node that can be written again goes to the query that awaits its id |
| `ConnectionEvents.UnwritableEnds` | crates/wa-core/src/router.rs:37-39 | One with an id that cannot be written again ends the loop, whoever awaits it |
| `ConnectionEvents.OthersReported` | crates/wa-core/src/router.rs:44-45 | In every other case the frame is reported, as what it is |
| `ConnectionOutcomes.EndsAsDecided` | crates/wa-core/src/connection.rs:99-119 | In every run a query ends with the answer of the first step that decides it (a taken tag, the flag, a gone queue, a frame, a gone sender, its deadline, its caller), and nothing else decides or changes it |
| `ConnectionOutcomes.SendSteps` | crates/wa-core/src/connection.rs:99-109 | How a send ends, and that its frame is enqueued exactly when it returns without an error |
| `ConnectionAnswers.AnsweredIff` | crates/wa-core/src/query.rs:121-156 | A query that has been handed a frame and ends, ends with that frame if and only if it was not giving up already and does not give up afterwards |
| `ConnectionAnswers.AnswerTooLate` | crates/wa-core/src/query.rs:121-148 | A run in which a frame goes to a query that has run out of time: no answer, no event, and the loop goes on |
| `ConnectionAnswers.ClosedIsHonest` | crates/wa-core/src/query.rs:38-57 | In every run that leaves the connection open, a query has been told that it is closed if and only if another query with its tag, registering or leaving, found its entry still in the table |
| `ConnectionAnswers.MisleadingTags` | crates/wa-core/src/query.rs:38-57 | For every list of tags: some run in which a query reports a closed connection while it is open exists if and only if two of the tags are the same |
| `ConnectionAnswers.SharedTagMisleads` | crates/wa-core/src/query.rs:38-57 | The shortest such run: a refused registration makes the first query report a closed connection |
| `ConnectionAnswers.DeafForever` | crates/wa-core/src/connection.rs:212-233 | Once the inbound loop has ended, no query that has been handed nothing is ever answered, however the run goes on |
| `ConnectionAnswers.AnswerToRefused` | crates/wa-core/src/query.rs:48-57 | A run in which a frame goes to a refused registration before its receiving end is dropped: no answer, no event, and the first query is told that the connection is closed |
| `ConnectionFrames.StuckIff` | crates/wa-core/src/router.rs:37-39 | The loop is stuck with a frame if and only if its payload decodes to a node that has an id and a piece no length header is written for; no payload of moderate size is such |
| `ConnectionFrames.DeadLoopBytes` | crates/wa-core/src/connection.rs:212-233 | While the connection is open, the inbound loop has ended if and only if it is through with the last frame received, no query got that frame by its own tag, and its payload is such a node |
| `ConnectionFrames.DeafWhileOpen` | crates/wa-core/src/router.rs:37-39 | A run on such a payload: the loop has ended, the connection is open, and the query that waits for this very node has nothing to wake it |
| `ConnectionLoop.DeafenedIff` | crates/wa-core/src/connection.rs:212-233 | In every run that leaves the connection open, the inbound loop has ended or can do nothing else if and only if it once held a frame with such a node while no query waited for the frame’s own tag |
| `ConnectionLoop.DeadLoopIff` | crates/wa-core/src/connection.rs:212-233 | In every reachable state that is open, the inbound loop has ended if and only if the last frame received has a node with an id that cannot be written again, and went to no query |
| `ConnectionSends.AcceptedIsSentIff` | crates/wa-core/src/connection.rs:99-109 | In every run: a frame whose send returned without an error has been handed to the sink, once the outbound loop has stopped, if and only if no close was enqueued before it and the sink failed on no frame enqueued before it |
| `ConnectionSends.AcceptedAndDropped` | crates/wa-core/src/connection.rs:183-210 | A run in which a send returns without an error and its frame never reaches the sink |
| `ConnectionEnds.ClosesOnce` | crates/wa-core/src/connection.rs:135-156 | At most one Closed event, only after the table is drained; the sink is closed at most once; frames sent are a prefix of those enqueued before the first close |
| `ConnectionEnds.CloseReturnsClosed` | crates/wa-core/src/connection.rs:135-156 | When `close` is over, dropped calls included, the connection is closed and its table drained |
| `ConnectionEnds.OutboundEndsClosed` | crates/wa-core/src/connection.rs:183-210 | A finished outbound task leaves a closed connection |
| `ConnectionEnds.EndAnnouncedIff` | crates/wa-core/src/connection.rs:135-156 | Once the party that set the flag has finished, over every further run the end is announced exactly once, unless that party was a call of `close` whose join failed or that was dropped, and then never |
| `ConnectionEnds.JoinFailedMeansFailed` | crates/wa-core/src/connection.rs:141-143 | A join cuts `close` short only when the outbound task has ended with an error, and nothing is announced before the party that set the flag has finished |
| `ConnectionEnds.EndNeverAnnounced` | crates/wa-core/src/connection.rs:141-143 | A run after which no continuation ever emits Closed: the outbound task fails while `close` waits for it |
| `ConnectionEnds.DropCutsShort` | crates/wa-core/src/connection.rs:139-139 | Another: `close` is dropped before it has told the outbound task, and both tasks go on |
| `ConnectionEnds.BeforeSpawn` | crates/wa-core/src/connection.rs:52-86 | Before `spawn` has returned there is no query, sender or closer, and the end has been announced if and only if the inbound loop has ended, having set the flag itself |
| `ConnectionEnds.ClosedFirstIff` | crates/wa-core/src/connection.rs:52-86 | In every run, Closed comes before Open if and only if the inbound task announces the end of its stream before `spawn` returns |
| `ConnectionEnds.ClosedBeforeOpened` | crates/wa-core/src/connection.rs:52-86 | A run in which it does |
| `Credentials.WriteThenRead` | crates/wa-core/src/auth.rs:223-363 | Writing credentials over any prior contents and reading them back returns the same record, absent optional fields included |
| `Credentials.WrittenFind` | crates/wa-core/src/auth.rs:260-363 | After writing, every field holds exactly the record’s bytes, and an absent one is gone |
| `Credentials.WrittenUnder` | crates/wa-core/src/auth.rs:260-363 | After writing, the store holds under each of the 24 names exactly the bytes of that field, numbers most significant byte first |
| `Credentials.ReadIff` | crates/wa-core/src/auth.rs:223-258 | A record is read if and only if the store holds exactly its bytes |
| `Credentials.ReadFailsIff` | crates/wa-core/src/auth.rs:223-258 | Reading fails exactly for a stored schema other than 1, or for a field that is missing, mis-sized, no boolean or not UTF-8; and finds nothing exactly without a schema |
| `Credentials.WriteFieldsApart` | crates/wa-core/src/auth.rs:260-363 | Nothing outside the credential fields changes |
| `Credentials.KeysDistinct` | crates/wa-core/src/auth.rs:7-32 | No two credential fields share a store key |
| `Credentials.OnlyFirstInitialises` | crates/wa-core/src/auth.rs:199-221 | On a store without credentials only the first of any number of calls initialises, and all return what it generated |
| `Credentials.Save` | crates/wa-core/src/auth.rs:186-197 | Saving replaces the record in one transaction |
| `Credentials.LoadOrInitialise` | crates/wa-core/src/auth.rs:199-221 | Fails exactly when reading fails, with that error and the store unchanged; a record that was there comes back with the store unchanged; without one the generated record is written and comes back as initialised |
| `Credentials.WriteToTransaction` | crates/wa-core/src/auth.rs:260-363 | The field-by-field writes have the specified effect |

## Left out

* zlib inflation itself, HKDF, HMAC, AES, the protobuf and JSON encoders: library code, parameters with the laws named above.
* The random initialisation vector, generated credentials, clocks and the network: parameters.
* The literal token tables: 1260 strings; only their shape matters to the codec.
* Stores whose own operations fail, and poisoned locks: every modelled operation of the in-memory store succeeds, so a failure between saving a state and clearing its blocked record does not occur here.
* External blobs, media and snapshot download: network transfer around decoding that is covered; a snapshot reference is opaque bytes.
* Building and parsing the sync query nodes, dirty bits, and the builders of chat patches: field mapping. That the key-share list is taken out of a message from the account itself is part of that mapping.
* How numbers and flags are printed into event fields: events hold the values before printing. `encoded_patch`, which is the patch message printed once more, is left out with them.
* Error messages: each error is a constructor, so which check fails first is modelled but not its text. Sizes that only fail on a 32-bit `usize` cannot occur.
* `Connection::drop`, aborting tasks on drop, and the end of the outbound queue when every sender is gone: the outbound task itself keeps a sender alive, so that end is unreachable while it lives.
* The bound of the outbound queue: a full queue only delays a step. Query deadlines are a step that may happen at any moment while nothing has come through, not a time.
* The bytes of an answer: an answer is the number of the received frame. `ConnectionFrames.Describe` ties a frame to its payload; for an answer matched through a node, `NodeDispatch.DispatchArrives` says what its bytes decode to.
* The moment between `resolve` taking a sender out of the table and using it (crates/wa-core/src/query.rs:68-77): the two are one step here, so that no receiver is dropped and no tag registered in between.
* The room that the reader of stored states reserves for up to 2^32 - 1 entries before it reads the first (crates/wa-core/src/app_state.rs:2911-2914): memory is unbounded here.
* `query_node`'s decoding of the answer, and the tags it generates: outside the lifecycle.
* Weaker memory orders: the flag’s acquire and release accesses are sequentially consistent here.
* Store.AuthStore.Sweep: models the paging loop with any rule that deletes or rewrites the entry it is at; when a token is expired, and a marker written under another key than its entry’s, are not modelled.
* Credentials.WriteToTransaction: goes through the list of fields in the order of the source’s successive statements.
* Liveness of the connection beyond being able to take a step: no scheduler is assumed.
* The Signal ratchet, sender keys, Noise, business, account and chat builders: not part of this model.
