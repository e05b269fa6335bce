# Verified models of Locast's core protocols

Locast lets a host share a film with a room of viewers. This project models the
parts of it whose correctness depends on state and order, and proves what they
are for:

1. **Chunked manifest transport** (`shared/protocol`). A manifest of up to 32 MiB
   is split into base64 pieces and reassembled by a bounded table of assemblies
   fed by untrusted pieces. `ManifestParts` has the pure half, `AssemblyTable`
   every transition of the table as a function, `AssemblyRuns`, `AssemblySafety`
   and `AssemblyDelivery` what holds of all runs, `AssemblyAnswers` every answer of a
   push exactly when, `AssemblyRefusals` what a refused push costs, `SharedBudget`
   every interleaving of the lock-free byte budget's atomic instructions, and
   `PartAssembler` the objects themselves, each method proved to be its transition.
   `SignedDelivery` follows a signed manifest from split to verification.
2. **Canonical manifest bytes and signatures** (`shared/manifest`). `Canonical`
   is the collecting serializer over every kind of value `serde` can feed it and
   `CollectedValues` what each kind becomes, `JsonTree` and `JsonText` the sorted tree
   and its compact text with a reader that undoes it and is undone by it,
   `ManifestModel`, `CanonicalBytes` and `CanonicalIdentity` the manifest and the
   theorem that its bytes determine it, `CanonicalShape` the printed tree written out
   key by key, `Signing` the host signature over any scheme.
3. **Drawing send path** (`apps/client/src/drawing`). `DrawingModel` is a step
   relation over user calls, frames, answers and timeouts; `DrawingCalls` says what
   the calls put in the queue, and `DrawingOrder`, `DrawingStrokes`, `DrawingRate`,
   `DrawingOverflow` and `DrawingLosses` prove what every interleaving keeps and loses;
   `PipelineModel` composes it with the pointer pipeline and `PipelineSamples` follows
   each sample through both; `DrawingSession`, `PointerPipeline` and the tracker of
   `UndoPolicy` are the objects.
4. **Playback ordering and synchronisation** (`apps/client/src/drift`). `Dedup`
   reorders events per sender, `DedupDecisions` says what becomes of each event,
   `DedupStreams` which streams are restored and `DedupGaps` how long a gap stays open,
   `ClockSkew` estimates the server's clock, `Drift` projects positions, bounds how far
   apart two viewers can be, and smooths.
5. **Bearer lease** (`apps/server/src/db.rs`). `BearerTable` is the table and its
   calls, `BearerLease` what they add up to over runs with a monotone clock.

`Wrappers`, `Words`, `Base64`, `Utf8`, `Sorting` and `CollectedTree` are shared
vocabulary. `dafny verify dfyconfig.toml` checks everything.

## How to read it

Where the program updates an object in place, the project has a class whose
methods are proved to be a transition function on values (`Abs()` gives the
value); the theorems are about that function, over every input and every run.
Foreign code is a parameter: SHA-256 and the JSON decoder of a manifest
(`Codec`), NFC (`Nfc`, any function; idempotence is assumed only where a theorem
says so), the signature scheme (`Scheme`). Clock readings, new ids, the answers
of the transport and of `canSend`, and the order of events are parameters too.

An ideal signature scheme is assumed per message: a signature made for this
message is accepted for no other one. With 64-byte signatures no scheme can have
that for all messages at once.

## Where the code and its documentation differ

- `manifest_parts.rs:322-323` says an error drops the assembly the piece belonged
  to. A push with an invalid header returns at line 333 before anything is
  dropped: `AssemblyDelivery.RefusedPush` gives the exact condition and
  `AssemblyRefusals.HeaderErrorKeepsAssembly` a run.
- `manifest_parts.rs:386-406` replaces and evicts before it reserves, so a push that
  the budget refuses can cost live assemblies their place:
  `AssemblyRefusals.BudgetRefusalCosts` says exactly which, and
  `AssemblyRefusals.RefusedReservationEvicts` is a run.
- `manifest_parts.rs:450-452` returns on a repeated piece before `last_activity` is
  refreshed, so repeats do not keep an assembly alive:
  `AssemblySafety.StaleAssemblyIsGone`.
- `drawingSession.ts:30-32` says the trailing position is never lost. It is always
  enqueued, but the overflow rule at line 403 picks the oldest waiting POINT of any
  stroke: `DrawingLosses.LostExactlyWhen` says exactly which POINTs are lost, and
  `DrawingOverflow.TrailingPositionLost` is a run.
- `dedup.ts:232-259` discards a parked event on a partial fill even if it is still
  ahead of the gap, so "no parked event is lost" does not hold: `Dedup.ParkedFate` says
  exactly when a step discards one, `DedupGaps.KeepsParkedExactlyWhen` of which runs the
  property holds, and `Dedup.PartialFillLoses` is one of which it does not.
- `dedup.ts:293-296` restarts the timer when the parked event is replaced, so "every gap
  ends in 5 s" does not hold: `DedupGaps.EveryGapEndsExactlyWhen` says of which runs it
  does, and `DedupGaps.GapOutlivesTimeout` is one of which it does not.
- The comment at `dedup.ts:264-280` says the parked event is replaced by one with a
  tighter gap; the code keeps the larger number, which is the wider gap, and drops the
  smaller one. The model follows the code.
- The comment at `dedup.ts:170-173` says the first event of a new sender is treated as a
  duplicate unless it is number 1; the code parks it and the tick hands it out:
  `DedupDecisions.LateJoinerFollows`.
- `drift.ts:248-250` says there is no drift before the command was stamped; the code
  computes one against the command's own position: `Drift.DriftIsLead`. The comment at
  `drift.ts:317` widens the thresholds from 200 ms of jitter on, the code above 200 ms:
  `Drift.IndicatorExactly`.
- `canonical.rs:84-108` files signed integers under `NegInt` whatever their sign, so
  `5` has two trees with one text: `JsonText.PrintInjective` is stated up to that,
  and no manifest is affected.
- `db.rs:434-447` returns the new expiry even if the update matched no row:
  `BearerLease.LostRenewal` says exactly when, and `BearerLease.RenewalIsLost` is a run.
- `db.rs:476-484` also frees the hashes of expired rows, so purging is invisible only as
  long as no hash is issued again: `BearerLease.PurgesInvisible`.

## Model

| member | source | states |
|---|---|---|
| `Base64.EncodedLength` | shared/crypto/src/ed25519.rs:92-94 | standard base64 of n bytes has ceil(n/3)*4 characters, which the length bound on a piece relies on |
| `Base64.DecodeEncode` | shared/crypto/src/ed25519.rs:92-94 | decoding what was encoded gives the bytes back |
| `Base64.EncodeDecode` | shared/crypto/src/ed25519.rs:152-157 | the strict decoder accepts canonical spellings only |
| `Base64.Bijection` | shared/crypto/src/ed25519.rs:152-157 | `from_base64` gives a byte string exactly if it is non-empty and the text is its encoding: one spelling per piece, key and signature |
| `Base64.Alphabet` | shared/crypto/src/ed25519.rs:92-94 | the alphabet, written out |
| `Base64.GroupValue` | shared/crypto/src/ed25519.rs:92-94 | four characters are the same number as their three bytes, first ones highest |
| `ManifestParts.ValidateHeader` | shared/protocol/src/manifest_parts.rs:489-518 | an accepted header bounds index, count, length and digest, so nothing oversized is ever begun |
| `ManifestParts.PartSizeFits` | shared/protocol/src/manifest_parts.rs:199-208 | a cap is served exactly from 4096 + 43692 bytes on; a granted size lets 32 MiB fit 1024 pieces and every piece, base64 plus 4096, fit the cap |
| `ManifestParts.PartSizeLargest` | shared/protocol/src/manifest_parts.rs:199-208 | the granted size is the largest up to 512 KiB whose base64 plus 4096 fits the cap, and a refusal names the cap |
| `ManifestParts.ChunksCount` | shared/protocol/src/manifest_parts.rs:228-236 | the number of pieces is the ceiling of length over size |
| `ManifestParts.ChunksRejoin` | shared/protocol/src/manifest_parts.rs:236-251 | the pieces are non-empty, all but the last of the given size, and concatenate to the input |
| `ManifestParts.SplitPieces` | shared/protocol/src/manifest_parts.rs:211-252 | exactly when a split succeeds, and that piece i carries chunk i under one common header that validates |
| `ManifestParts.SplitRefused` | shared/protocol/src/manifest_parts.rs:219-235 | exactly what a refused split is blamed on, and the limit it names |
| `ManifestParts.SplitForFrameCap` | shared/protocol/src/manifest_parts.rs:199-252 | with a granted size every non-empty manifest up to 32 MiB splits and every piece fits the frame |
| `AssemblyTable.Find` | shared/protocol/src/manifest_parts.rs:352-355 | the first entry with the key, or none has it |
| `AssemblyTable.Oldest` | shared/protocol/src/manifest_parts.rs:395-401 | the first entry of least activity |
| `AssemblyTable.KeptMembers` | shared/protocol/src/manifest_parts.rs:314-319 | `retain` keeps exactly the entries that satisfy the predicate |
| `AssemblyTable.SwapRemovedMembers` | shared/protocol/src/manifest_parts.rs:401 | `swap_remove` loses exactly the removed entry |
| `AssemblyTable.EvictMembers` | shared/protocol/src/manifest_parts.rs:394-402 | eviction makes room for one more, keeps only old entries, and does nothing when there is room |
| `AssemblyTable.FrontOrigin` | shared/protocol/src/manifest_parts.rs:325-422 | whatever a push finds in the table before it takes its piece was there before and has not expired |
| `AssemblyRuns.FrontFacts` | shared/protocol/src/manifest_parts.rs:325-422 | a push that gets past the front holds a valid header and a decoded piece of legal size; a fresh start has room and no rival of the same id or kind |
| `AssemblyRuns.ExtendPieces` | shared/protocol/src/manifest_parts.rs:464-466 | appending a piece leaves all earlier pieces as they were and makes it the last one |
| `AssemblyRuns.TakeKeepsInv` | shared/protocol/src/manifest_parts.rs:424-487 | taking a piece keeps the table invariant, accepted or refused |
| `AssemblyRuns.PushKeepsInv` | shared/protocol/src/manifest_parts.rs:325-422 | every push, with hostile pieces and any budget answer, keeps it: at most `max_concurrent` entries, one per (room, kind) and per (room, id), `ends` strictly increasing to the buffer length within `total_bytes`, steps of at most 512 KiB |
| `AssemblyRuns.PushOrigin` | shared/protocol/src/manifest_parts.rs:325-487 | every entry after a push is an old unexpired one, an old one grown by exactly this piece, or a new one holding exactly this piece |
| `AssemblySafety.Run` | shared/protocol/src/manifest_parts.rs:291-422 | the invariant holds after any run of pushes, expiries and clears |
| `AssemblySafety.Provenance` | shared/protocol/src/manifest_parts.rs:325-487 | every entry of every reachable table was made by pushes for its (room, id) that delivered its pieces in order under one header; every later well-formed push for it repeated one of them |
| `AssemblySafety.JoinedPrefix` | shared/protocol/src/manifest_parts.rs:464-466 | the buffer is the concatenation of what those pushes carried |
| `AssemblySafety.ManifestIsWhatWasSent` | shared/protocol/src/manifest_parts.rs:325-487 | whenever a push returns a manifest, it was decoded from the concatenation of pieces 0..total-1 of one assembly pushed in order under one header, of the declared length and digest, after any hostile run |
| `AssemblySafety.StaleAssemblyIsGone` | shared/protocol/src/manifest_parts.rs:312-320 | an entry with no new piece for `ttl` does not survive a push or expiry, however many duplicates arrived |
| `AssemblyAnswers.HeaderExactly` | shared/protocol/src/manifest_parts.rs:489-518 | exactly which headers are accepted, and each fault of a header exactly when it is reported |
| `AssemblyAnswers.DigestExactly` | shared/protocol/src/manifest_parts.rs:506-510 | a digest is 64 characters of 0-9 and a-f, written out |
| `AssemblyAnswers.LiveMembers` | shared/protocol/src/manifest_parts.rs:312-320 | expiry keeps exactly the assemblies that made progress less than `ttl` ago |
| `AssemblyAnswers.IllegalAnswer` | shared/protocol/src/manifest_parts.rs:332-350 | an illegal header is answered with its fault and costs nothing but what has expired; a part that carries no legal piece is answered `BadPiece` and costs its own assembly |
| `AssemblyAnswers.KnownAnswer` | shared/protocol/src/manifest_parts.rs:352-487 | the answer of a live assembly, every error and both `Ok`s exactly when, and what the table then holds: on `Ok(None)` its pieces with this one among them, otherwise nothing of it, and all other live assemblies as they were |
| `AssemblyAnswers.StartAnswer` | shared/protocol/src/manifest_parts.rs:356-487 | the same for a first piece that starts an assembly; granted or refused, it costs exactly the assembly of its room and kind and, in a table still full, the stalest other one |
| `AssemblyAnswers.LateAnswer` | shared/protocol/src/manifest_parts.rs:356-362 | a later piece of an assembly that is not there is answered `OutOfOrder(0, index)` and changes nothing |
| `AssemblyAnswers.MoreExpectedMeansHeld` | shared/protocol/src/manifest_parts.rs:322-379 | `Ok(None)` is never said of a piece that is not held: the table then has an entry of that room, id and header whose piece of that index is what the part carries |
| `AssemblyAnswers.OutOfOrderExactlyWhen` | shared/protocol/src/manifest_parts.rs:356-362 | `OutOfOrder(k, index)` exactly if header and piece are legal, `k < index`, and `k` pieces are held under the same header, or none and no assembly is there |
| `AssemblyAnswers.BlamedExactlyWhen` | shared/protocol/src/manifest_parts.rs:332-405 | `BadPiece` exactly if the header is legal and no legal piece is carried; `BudgetExhausted` exactly if a legal first piece finds no assembly and the budget refuses |
| `AssemblyDelivery.TakeNext` | shared/protocol/src/manifest_parts.rs:424-487 | the next piece in order is taken, and the last one completes exactly the original bytes |
| `AssemblyDelivery.OthersSpare` | shared/protocol/src/manifest_parts.rs:325-422 | an operation on another assembly leaves ours untouched or removes it entirely |
| `AssemblyDelivery.Delivery` | shared/protocol/src/manifest_parts.rs:325-487 | from any reachable table: pieces in order, repeats and foreign traffic in between, answer "more expected" until the last and then the original |
| `AssemblyDelivery.RoundTrip` | shared/protocol/src/manifest_parts.rs:199-487 | end to end: split for a frame cap, pushed undisturbed, gives the decoding of exactly the split bytes and nothing earlier |
| `AssemblyDelivery.SplitCarries` | shared/protocol/src/manifest_parts.rs:199-252 | what is split for a frame cap with a legal header carries the bytes in valid non-empty pieces |
| `SignedDelivery.PlainUndisturbed` | shared/protocol/src/manifest_parts.rs:325-487 | pushing the pieces in order, less than `ttl` apart and with budget room, is such an undisturbed run |
| `SignedDelivery.PlainRoundTrip` | shared/protocol/src/manifest_parts.rs:199-487 | so split and pushed in order gives the decoding of exactly the original bytes, from any table without that assembly |
| `SignedDelivery.SignedManifestArrives` | shared/manifest/src/signing.rs:62-131 | a viewer that gets the pieces of a signed manifest assembles that manifest and accepts it |
| `SignedDelivery.DeliveredIsHosts` | shared/manifest/src/signing.rs:101-131 | after any hostile run: a completed manifest with the host's block of `m` verifies exactly if it is `m` up to NFC and the block |
| `AssemblyDelivery.RefusedPush` | shared/protocol/src/manifest_parts.rs:322-333 | a refused push leaves its assembly in the table exactly if the header was invalid and a live assembly existed: the exact condition under which the doc comment is wrong |
| `AssemblyRefusals.HeaderErrorKeepsAssembly` | shared/protocol/src/manifest_parts.rs:322-333 | and it happens: after the first of two pieces a part with count 0 is refused and the assembly is still there |
| `AssemblyRefusals.BudgetRefusalCosts` | shared/protocol/src/manifest_parts.rs:386-406 | exactly which live assemblies a push costs that the budget then refuses: the one of its room and kind, and the stalest other one if the table is still full without it and the expired ones |
| `AssemblyRefusals.RefusedReservationEvicts` | shared/protocol/src/manifest_parts.rs:386-406 | and it happens: with one slot and a budget of 2 bytes a refused 3-byte manifest for one room removes the assembly of another |
| `SharedBudget.EvictConserves` | shared/protocol/src/manifest_parts.rs:394-402 | eviction releases exactly what it drops |
| `SharedBudget.FrontConserves` | shared/protocol/src/manifest_parts.rs:325-405 | what a push holds plus what it releases before reserving is what was held |
| `SharedBudget.TakeConserves` | shared/protocol/src/manifest_parts.rs:367-378 | a completed or failed assembly releases its whole reservation |
| `SharedBudget.StepConserves` | shared/protocol/src/manifest_parts.rs:150-183 | one load, compare-and-swap or release changes the counter by exactly the change of its own connection's reservations, and never beyond the cap |
| `SharedBudget.StepRefines` | shared/protocol/src/manifest_parts.rs:131-183 | every connection keeps behaving like a sequential assembler with the budget's answers as oracle |
| `SharedBudget.Conservation` | shared/protocol/src/manifest_parts.rs:131-183 | in every interleaving of connections with limits and lifetimes of their own, at every moment: counter = sum of reservations <= cap, and zero when nothing is held |
| `SharedBudget.SeenWasReal` | shared/protocol/src/manifest_parts.rs:150-170 | the value on which the loop gives up was really in the counter at a moment inside that call |
| `SharedBudget.SwapDecides` | shared/protocol/src/manifest_parts.rs:150-170 | each compare-and-swap of a call grants if the bytes fit at that moment, gives up only if they did not fit at a moment inside the call, and retries only if another connection changed the counter in between |
| `PartAssembler.ByteBudget.CompareExchange` | shared/protocol/src/manifest_parts.rs:157-168 | `compare_exchange`: swaps exactly if the value is the expected one, and reports it |
| `PartAssembler.ByteBudget.Reserve` | shared/protocol/src/manifest_parts.rs:150-170 | reserves exactly if the bytes fit; alone the loop never retries, and its behaviour under interference is `SharedBudget` |
| `PartAssembler.ByteBudget.Release` | shared/protocol/src/manifest_parts.rs:179-183 | a dropped reservation subtracts its bytes |
| `PartAssembler.PartAssembler.constructor` | shared/protocol/src/manifest_parts.rs:294-301 | starts empty, with at least one slot |
| `PartAssembler.PartAssembler.Clear` | shared/protocol/src/manifest_parts.rs:309-311 | drops everything and gives all of it back |
| `PartAssembler.PartAssembler.Expire` | shared/protocol/src/manifest_parts.rs:314-320 | is the expiry transition, with its count and its releases |
| `PartAssembler.PartAssembler.Position` | shared/protocol/src/manifest_parts.rs:352-355 | the loop finds the entry `Find` specifies |
| `PartAssembler.PartAssembler.IndexOfOldest` | shared/protocol/src/manifest_parts.rs:395-400 | the loop finds the entry `Oldest` specifies |
| `PartAssembler.PartAssembler.Begin` | shared/protocol/src/manifest_parts.rs:386-422 | replaces, evicts, then reserves: on a refused reservation the evictions stand |
| `PartAssembler.PartAssembler.Take` | shared/protocol/src/manifest_parts.rs:424-487 | updates `ends`, `buf` and `last_activity` in place as `TakePiece` specifies |
| `PartAssembler.PartAssembler.Push` | shared/protocol/src/manifest_parts.rs:325-379 | is the push transition on table, budget and answer, whose every answer `AssemblyAnswers` states, and keeps the invariant |
| `Utf8.CharDecodes` | shared/manifest/src/canonical.rs:496-499 | a scalar value is recovered from its UTF-8 bytes followed by anything |
| `Utf8.DecodeEncode` | shared/manifest/src/canonical.rs:496-499 | a string is recovered from its UTF-8 bytes |
| `Utf8.EncodeDecode` | shared/manifest/src/canonical.rs:496-499 | whatever the strict decoder accepts is the encoding of what it decodes to: one spelling per string |
| `Utf8.NoControlBytes` | shared/manifest/src/canonical.rs:496-499 | a byte below 0x20 can only come from a character below 0x20 |
| `JsonTree.KeyTotal` | shared/manifest/src/canonical.rs:46 | the byte order of keys is a total order |
| `JsonTree.KeyOrder` | shared/manifest/src/canonical.rs:46 | comparing the UTF-8 bytes of two keys is comparing their characters, which is what lexicographic means |
| `JsonTree.InsertKeepsOrder` | shared/manifest/src/canonical.rs:46 | inserting into a map keeps its keys strictly increasing |
| `JsonTree.LookupInsert` | shared/manifest/src/canonical.rs:376-385 | an insertion changes the value of its own key only |
| `JsonTree.LookupAll` | shared/manifest/src/canonical.rs:395-411 | an object built from unambiguous entries holds exactly them |
| `JsonTree.SortedUnique` | shared/manifest/src/canonical.rs:46 | a sorted list of entries is determined by the set of its entries |
| `JsonText.CharRead` | shared/manifest/src/canonical.rs:457-499 | every escape is undone, and no escape starts with a quote |
| `JsonText.TextRead` | shared/manifest/src/canonical.rs:463 | a quoted string is read back up to its closing quote |
| `JsonText.NumberRead` | shared/manifest/src/canonical.rs:461-462 | a number is read back up to its tag |
| `JsonText.ParsePrint` | shared/manifest/src/canonical.rs:456-499 | the printer is undone: a reader recovers any tree, up to number tags, from its compact text followed by anything |
| `JsonText.ParseExact` | shared/manifest/src/canonical.rs:456-499 | and the reader is undone: whatever it accepts is the text of what it reads, so every tree has one spelling, escapes and numbers included |
| `JsonText.PrintInjective` | shared/manifest/src/canonical.rs:456-499 | two trees print alike exactly if they differ in number tags only |
| `JsonText.SameDigits` | shared/manifest/src/canonical.rs:84-108 | `PosInt` and `NegInt` print the same digits, so printing is not injective on raw trees |
| `JsonText.PrintPrintable` | shared/manifest/src/canonical.rs:456-499 | no character below 0x20 is ever printed |
| `Canonical.SeqSerializer.SerializeElement` | shared/manifest/src/canonical.rs:276-286 | pushes the collected element, or reports its error and changes nothing |
| `Canonical.MapSerializer.SerializeKey` | shared/manifest/src/canonical.rs:360-373 | inserts the key with null and remembers it; a key that is not text is refused |
| `Canonical.MapSerializer.SerializeValue` | shared/manifest/src/canonical.rs:375-385 | attaches the value to the pending key; without one it is an error |
| `Canonical.StructSerializer.SerializeField` | shared/manifest/src/canonical.rs:405-411 | inserts the field, or reports its error and changes nothing |
| `Canonical.CollectMap` | shared/manifest/src/canonical.rs:356-390 | driving the map serializer gives what `Collect` says, first error included |
| `Canonical.CollectSequence` | shared/manifest/src/canonical.rs:272-287 | driving the sequence serializer gives what `Collect` says |
| `Canonical.CollectStruct` | shared/manifest/src/canonical.rs:401-416 | driving the struct serializer gives what `Collect` says |
| `Canonical.InsertTwice` | shared/manifest/src/canonical.rs:367-383 | of two insertions under one key only the second counts, so the null placeholder never shows |
| `Canonical.CollectSorted` | shared/manifest/src/canonical.rs:66-452 | keys strictly increase at every depth of whatever is collected, in whatever order entries arrive |
| `Canonical.TextCollects` | shared/manifest/src/canonical.rs:360-373 | exactly the strings, characters, unit variants and wrappers of them are map keys |
| `CollectedValues.TextNormalised` | shared/manifest/src/canonical.rs:121-162 | a value that collects to a string collects to the normal form of its text |
| `CollectedValues.LeavesPrinted` | shared/manifest/src/canonical.rs:80-137 | how booleans, integers of either kind, absence and unit are printed |
| `CollectedValues.VariantsAreTagged` | shared/manifest/src/canonical.rs:139-224 | a variant with content collects like a struct with one member of its name; wrappers are transparent |
| `Canonical.CollectFails` | shared/manifest/src/canonical.rs:110-133 | collecting succeeds exactly if there is no float, no byte string and no map key that is not text, at any depth |
| `CollectedValues.FirstRefusal` | shared/manifest/src/canonical.rs:110-133 | the first thing refused, in serialisation order at any depth, decides the error: floats, byte strings, keys that are not text |
| `Canonical.MapOrder` | shared/manifest/src/canonical.rs:351-390 | a map whose text keys stay distinct under normalisation collects to the same tree in every arrival order, and is refused in all of them or none |
| `CollectedValues.MapAt` | shared/manifest/src/canonical.rs:351-390 | a collected map holds, under each normalised key, the value of its last entry with that key, and nothing else |
| `CollectedTree.StructAt` | shared/manifest/src/canonical.rs:395-416 | a member of a collected struct is found under its name, and no other name is there |
| `CollectedTree.SequenceAt` | shared/manifest/src/canonical.rs:268-287 | the elements of a collected sequence are found in order |
| `ManifestModel.ManifestAdmissible` | shared/manifest/src/model.rs:119-137 | no manifest holds anything the canonical form refuses |
| `ManifestModel.MediaDistinct` | shared/manifest/src/model.rs:13-41 | the field names of an entry are distinct, present and skipped ones alike |
| `CanonicalBytes.CodecsRead` | shared/manifest/src/model.rs:53-61 | codecs are read back with skipped components absent |
| `CanonicalBytes.SourceRead` | shared/manifest/src/model.rs:65-83 | a source is read back as its normal form; that an absent hint is written as null is `CanonicalShape.SourceShape` |
| `CanonicalBytes.EntryRead` | shared/manifest/src/model.rs:13-41 | a media entry is read back as its normal form, skipped fields included |
| `CanonicalBytes.SubtitleRead` | shared/manifest/src/model.rs:87-102 | a subtitle entry is read back as its normal form |
| `CanonicalBytes.ManifestRead` | shared/manifest/src/canonical.rs:519-536 | the stripped tree of a manifest is read back as its normal form |
| `CanonicalBytes.SignatureIsNull` | shared/manifest/src/canonical.rs:562-570 | the canonical tree always carries `host_signature` with null |
| `CanonicalBytes.SerializeSucceeds` | shared/manifest/src/canonical.rs:519-536 | serialising a manifest never fails |
| `CanonicalBytes.RecoverSerialize` | shared/manifest/src/canonical.rs:519-536 | a reader recovers the normalised manifest from its canonical bytes: they determine every field; which bytes they are is `CanonicalShape.SerializeExactly` |
| `CanonicalBytes.CanonicalIsSorted` | shared/manifest/src/canonical.rs:504-536 | keys strictly increase at every depth of what is signed |
| `CanonicalBytes.OnlyTheFinalNewline` | shared/manifest/src/canonical.rs:533-535 | the only byte below 0x20, and the only newline, is the last byte |
| `CanonicalShape.SourceShape` | shared/manifest/src/model.rs:65-83 | the object of a source has exactly `chunk_hashes`, `chunk_size`, `peer_id`, `priority`, `total_chunks` and `url_hint`, the hint null exactly if there is none |
| `CanonicalShape.CodecsShape` | shared/manifest/src/model.rs:53-61 | the object of codecs has exactly the components that are known |
| `CanonicalShape.EntryShape` | shared/manifest/src/model.rs:13-41 | the object of an entry has its eight fixed keys, and `dimensions` and `codecs` exactly if they are known, each with its value |
| `CanonicalShape.SubtitleShape` | shared/manifest/src/model.rs:87-102 | the object of a subtitle has exactly its eight keys, each with its value |
| `CanonicalShape.TreeIsManifest` | shared/manifest/src/canonical.rs:504-570 | the printed tree has exactly the keys and values of the manifest at every depth, written out, with `host_signature` null |
| `CanonicalShape.SerializeExactly` | shared/manifest/src/canonical.rs:504-536 | the canonical bytes are the text of the one sorted tree that has this shape, and a newline |
| `CanonicalIdentity.SignatureStripped` | shared/manifest/src/canonical.rs:562-570 | whatever the signature block holds, the same tree is printed |
| `CanonicalIdentity.SameBytes` | shared/manifest/src/canonical.rs:504-570 | two manifests have the same canonical bytes exactly if they have the same normal form: equal up to NFC and the signature block |
| `CanonicalIdentity.NormalFormSerializesAlike` | shared/manifest/src/canonical.rs:127-129 | with an idempotent normalisation a manifest and its normalised form share their bytes |
| `Signing.PublicKeyDecodes` | shared/manifest/src/signing.rs:134-147 | the only text that decodes to a key is its base64 |
| `Signing.SignatureDecodes` | shared/manifest/src/signing.rs:150-164 | the only text that decodes to a signature is its base64 |
| `Signing.VerifiesExactlyWhen` | shared/manifest/src/signing.rs:101-131 | a manifest verifies exactly if its block spells, under `ed25519`, a key and a signature that the scheme accepts for its canonical bytes |
| `Signing.StagesExactly` | shared/manifest/src/signing.rs:101-164 | which stage refuses and with what: block, algorithm, key text, signature text, in that order |
| `Signing.LastStages` | shared/manifest/src/signing.rs:112-131 | an all-zero key or one that is no point is blamed on the key, a signature not accepted for the canonical bytes on the signature |
| `Signing.SignedShape` | shared/manifest/src/signing.rs:62-86 | signing changes nothing but the block, and not the canonical bytes |
| `Signing.SignVerifies` | shared/manifest/src/signing.rs:62-131 | under a complete scheme what is signed verifies, for every manifest |
| `Signing.SignAgain` | shared/manifest/src/signing.rs:62-86 | signing again with the same key changes nothing; with another key it replaces the block |
| `Signing.CarriedBlock` | shared/manifest/src/signing.rs:101-131 | under an ideal scheme a manifest carrying the block of a signed one verifies exactly if it equals that one up to NFC and the block; otherwise the error is a signature mismatch |
| `DrawingModel.FirstPoint` | apps/client/src/drawing/drawingSession.ts:403 | the oldest waiting POINT |
| `DrawingOrder.DropShape` | apps/client/src/drawing/drawingSession.ts:402-408 | dropping on overflow removes exactly the oldest waiting POINT |
| `DrawingOrder.EnqueueKeeps` | apps/client/src/drawing/drawingSession.ts:396-415 | enqueueing keeps the queue invariant |
| `DrawingOrder.SettleKeeps` | apps/client/src/drawing/drawingSession.ts:418-484 | an answer, a thrown error or a timeout of the send in flight keeps it; a late one changes nothing |
| `DrawingOrder.ApplyKeeps` | apps/client/src/drawing/drawingSession.ts:208-484 | every event keeps the queue invariant |
| `DrawingOrder.Conservation` | apps/client/src/drawing/drawingSession.ts:396-484 | in every reachable state `queuedPoints` is the number of waiting POINTs and at most 32, these are the newest ones enqueued, everything enqueued is waiting, in flight or settled once, only POINTs are dropped, and a non-empty queue is being pumped |
| `DrawingStrokes.Reachable` | apps/client/src/drawing/drawingSession.ts:208-484 | every reachable state satisfies the queue and stroke invariants |
| `DrawingStrokes.Fifo` | apps/client/src/drawing/drawingSession.ts:418-447 | once a send starts, everything enqueued before it is settled, and started unless dropped or withheld |
| `DrawingStrokes.StartedInOrder` | apps/client/src/drawing/drawingSession.ts:418-436 | started sends are a subsequence of the enqueue order |
| `DrawingStrokes.StrokeNumbers` | apps/client/src/drawing/drawingSession.ts:208-275 | of two started sends of a stroke the later has the larger `client_seq`, is a POINT or END, and does not follow an END |
| `DrawingStrokes.BeginComesFirst` | apps/client/src/drawing/drawingSession.ts:208-275 | a POINT or END starts after the BEGIN of its stroke, which did not fail |
| `DrawingStrokes.NeverInterleaved` | apps/client/src/drawing/drawingSession.ts:208-275 | between two sends of one stroke there is none of another |
| `DrawingStrokes.UndoFollowsEnd` | apps/client/src/drawing/drawingSession.ts:312-328 | an undo or clear requested after `endStroke` starts after that END, unless the END was withheld because the BEGIN failed |
| `DrawingStrokes.SettledOnce` | apps/client/src/drawing/drawingSession.ts:438-447 | no promise is settled twice in any continuation, and after a failed BEGIN nothing more of its stroke starts |
| `DrawingCalls.EventLogs` | apps/client/src/drawing/drawingSession.ts:208-415 | exactly what each event enqueues: one send with its own arguments per begin, undo and clear, the pending position and an END when a stroke closes, nothing else |
| `DrawingCalls.LogIsAsked` | apps/client/src/drawing/drawingSession.ts:208-328 | over whole runs the sends other than POINTs are exactly what the calls ask for, in order and with their arguments: every begin, undo and clear, and an END for every stroke a call closes |
| `DrawingCalls.ControlAlone` | apps/client/src/drawing/drawingSession.ts:312-328 | an undo or clear has a stroke identity to itself, so no failed stroke withholds it |
| `DrawingCalls.NumberedRuns` | apps/client/src/drawing/drawingSession.ts:208-387 | in every run the sends of each stroke are numbered 1, 2, 3 and so on without a gap |
| `DrawingCalls.NewestRuns` | apps/client/src/drawing/drawingSession.ts:246-387 | in every run the position given last to the open stroke is pending with a frame to come, or it is the newest send of its stroke |
| `DrawingCalls.TrailingEnqueued` | apps/client/src/drawing/drawingSession.ts:259-275 | closing a stroke enqueues its trailing position just before its END |
| `DrawingCalls.FrameSendsExactlyWhen` | apps/client/src/drawing/drawingSession.ts:344-387 | a frame sends the newest position exactly if one is pending and no POINT was flushed in the last 12.5 ms, and only once |
| `DrawingCalls.AnswerSettles` | apps/client/src/drawing/drawingSession.ts:418-447 | settling records that answer alone and takes the next waiting task, withheld exactly if the BEGIN of its stroke failed |
| `DrawingRate.GatedBound` | apps/client/src/drawing/drawingSession.ts:373-374 | k gated flushes in a window span at least 12.5 (k - 1) ms |
| `DrawingRate.EventFlushes` | apps/client/src/drawing/drawingSession.ts:208-275 | an event flushes at most one POINT: gated in a frame, forced when it ends an open stroke; ending or beginning while none is open flushes nothing |
| `DrawingRate.RunSpaced` | apps/client/src/drawing/drawingSession.ts:344-387 | with a clock that does not go back, gated flushes keep their distance in every run |
| `DrawingRate.ForcedByEnds` | apps/client/src/drawing/drawingSession.ts:259-263 | every flush that bypasses the gate belongs to a call that ends an open stroke |
| `DrawingRate.RateBound` | apps/client/src/drawing/drawingSession.ts:344-387 | in any half-open second at most 80 gated POINTs are enqueued, and at most 80 plus the strokes ended in it in all |
| `DrawingOverflow.LostExactlyOnOverflow` | apps/client/src/drawing/drawingSession.ts:400-408 | a waiting POINT is lost exactly if 32 wait, one more comes, and it is the oldest of them |
| `DrawingLosses.WaitingRank` | apps/client/src/drawing/drawingSession.ts:396-408 | a waiting POINT has at most 31 newer ones behind it, and 31 exactly if the queue is full and it is the oldest |
| `DrawingLosses.ApplyDecides` | apps/client/src/drawing/drawingSession.ts:208-484 | an event drops a waiting POINT exactly if it brings the 32nd newer one |
| `DrawingLosses.LostExactlyWhen` | apps/client/src/drawing/drawingSession.ts:30-35 | over whole runs: a POINT is lost exactly if 32 newer POINTs, of any stroke, were enqueued while it waited |
| `DrawingOverflow.TrailingPositionLost` | apps/client/src/drawing/drawingSession.ts:30-32 | a run in which the last POINT of a finished stroke is dropped unsent |
| `DrawingSession.DrawingSession.PumpNext` | apps/client/src/drawing/drawingSession.ts:418-436 | one turn of the pump is the pump transition |
| `DrawingSession.DrawingSession.Enqueue` | apps/client/src/drawing/drawingSession.ts:396-415 | is the enqueue transition |
| `DrawingSession.DrawingSession.BeginStroke` | apps/client/src/drawing/drawingSession.ts:208-238 | is its transition, enqueues the BEGIN with its own arguments last, and keeps the invariants |
| `DrawingSession.DrawingSession.AppendPoint` | apps/client/src/drawing/drawingSession.ts:246-250 | is its transition and keeps the invariants |
| `DrawingSession.DrawingSession.EndStroke` | apps/client/src/drawing/drawingSession.ts:259-275 | is its transition and keeps the invariants |
| `DrawingSession.DrawingSession.CancelStroke` | apps/client/src/drawing/drawingSession.ts:297-302 | is its transition and keeps the invariants |
| `DrawingSession.DrawingSession.UndoStroke` | apps/client/src/drawing/drawingSession.ts:312-317 | is its transition, enqueues exactly the undo of this id under a stroke of its own, and keeps the invariants |
| `DrawingSession.DrawingSession.ClearAll` | apps/client/src/drawing/drawingSession.ts:324-328 | is its transition, enqueues exactly a clear under a stroke of its own, and keeps the invariants |
| `DrawingSession.DrawingSession.FlushPending` | apps/client/src/drawing/drawingSession.ts:369-387 | is the flush transition |
| `DrawingSession.DrawingSession.OnFrame` | apps/client/src/drawing/drawingSession.ts:344-353 | is the frame transition and keeps the invariants |
| `DrawingSession.DrawingSession.OnSettled` | apps/client/src/drawing/drawingSession.ts:438-484 | is the settling transition and keeps the invariants |
| `DrawingSession.DrawingSession.OnSkipped` | apps/client/src/drawing/drawingSession.ts:438-439 | resumes after a withheld send |
| `PipelineModel.DownKeeps` | apps/client/src/drawing/pointerPipeline.ts:121-168 | a pointer down keeps the composed invariant, whatever the sample, the id and `canSend` |
| `PipelineModel.MoveKeeps` | apps/client/src/drawing/pointerPipeline.ts:171-186 | so does a move, also of another pointer or with numbers that are not finite |
| `PipelineModel.FinishKeeps` | apps/client/src/drawing/pointerPipeline.ts:210-234 | so does finishing, with or without END |
| `PipelineModel.TracedFinish` | apps/client/src/drawing/pointerPipeline.ts:210-234 | finishing ties the stroke to the local calls that drew it |
| `PipelineModel.SessionKeeps` | apps/client/src/drawing/drawingSession.ts:208-484 | frames, answers, undo and clear do not touch what the pipeline owns |
| `PipelineModel.Composition` | apps/client/src/drawing/pointerPipeline.ts:121-243 | in every composed run the session has an open stroke exactly while the pipeline is networked, with the same id; local begins and ends alternate; every wire stroke, open or finished, is a subsequence of the points the local sink was given for the stroke of its id, from the first on |
| `PipelineModel.FinishedStroke` | apps/client/src/drawing/pointerPipeline.ts:121-243 | a stroke whose END is enqueued shows the first and last point of the local sink's calls for that id, all in [0,1], in order |
| `PipelineSamples.SamplesAreDrawn` | apps/client/src/drawing/pointerPipeline.ts:69-243 | in every run the local sink is called exactly as the pointer events ask: a stroke per readable pointer down with its id and style, a point per accepted sample at its own clamped coordinates and time, an end per stroke; the session is called for the strokes that may be sent, at the same positions |
| `PipelineSamples.PointsAreSamples` | apps/client/src/drawing/pointerPipeline.ts:171-186 | the k-th local point of a stroke shows the k-th accepted sample |
| `PipelineSamples.FinishedSamples` | apps/client/src/drawing/pointerPipeline.ts:121-243 | a stroke whose END is enqueued shows, on the wire, some of its accepted samples in order, the first and the last among them, at their own clamped coordinates |
| `PipelineSamples.SendsAreAsked` | apps/client/src/drawing/pointerPipeline.ts:121-243 | every BEGIN, END, undo and clear of a composed run is one the pointer or the user asked for, in order, with style and position of the first sample |
| `PointerPipeline.PointerStrokePipeline.Down` | apps/client/src/drawing/pointerPipeline.ts:121-168 | is its transition and keeps the invariant of pipeline and session |
| `PointerPipeline.PointerStrokePipeline.Move` | apps/client/src/drawing/pointerPipeline.ts:171-186 | is its transition and keeps the invariant of pipeline and session |
| `PointerPipeline.PointerStrokePipeline.Up` | apps/client/src/drawing/pointerPipeline.ts:189-194 | is its transition and keeps the invariant of pipeline and session |
| `PointerPipeline.PointerStrokePipeline.Cancel` | apps/client/src/drawing/pointerPipeline.ts:197-203 | is its transition and keeps the invariant of pipeline and session |
| `PointerPipeline.PointerStrokePipeline.Finish` | apps/client/src/drawing/pointerPipeline.ts:210-234 | is its transition and keeps the invariant of pipeline and session |
| `UndoPolicy.Pick` | apps/client/src/drawing/undoPolicy.ts:37-50 | the newest finished stroke that is neither pending nor given up, or there is none |
| `UndoPolicy.PickUndoTarget` | apps/client/src/drawing/undoPolicy.ts:37-50 | the backward loop finds it |
| `UndoPolicy.PlanUndo` | apps/client/src/drawing/undoPolicy.ts:135-149 | with the permission: the newest eligible stroke or nothing; without: a local undo if there is anything |
| `UndoPolicy.ApplyTimed` | apps/client/src/drawing/undoPolicy.ts:72-133 | every call and every timer keeps timer keys equal to `pending` |
| `UndoPolicy.ApplyDisjoint` | apps/client/src/drawing/undoPolicy.ts:92-103 | `pending` and `gaveUp` stay disjoint exactly unless a given-up stroke is marked |
| `UndoPolicy.EventMarks` | apps/client/src/drawing/undoPolicy.ts:92-133 | exactly which strokes await an answer and which are given up after each event; a stroke awaits one exactly while a timer can fire for it |
| `UndoPolicy.PickedRuns` | apps/client/src/drawing/undoPolicy.ts:37-149 | in any run that marks only picked targets, with strokes drawn and removed between presses, both invariants hold |
| `UndoPolicy.RequestedAgain` | apps/client/src/drawing/undoPolicy.ts:37-149 | in any run, on any canvases, a stroke is requested a second time only after a failure or answer for it, or a reset |
| `UndoPolicy.GivenUpStays` | apps/client/src/drawing/undoPolicy.ts:85-133 | a stroke that was given up is not requested again before an answer for it or a reset, not even after a failure |
| `UndoPolicy.SilentAtMostOnce` | apps/client/src/drawing/undoPolicy.ts:37-149 | so without those no stroke is requested twice, whatever is drawn or removed meanwhile, and only finished strokes are |
| `UndoPolicy.SilentStep` | apps/client/src/drawing/undoPolicy.ts:37-149 | without answers a press with a target strictly decreases the number of eligible strokes |
| `UndoPolicy.SilentRun` | apps/client/src/drawing/undoPolicy.ts:37-149 | without answers and on one canvas requests go newest to oldest, at most one per finished stroke, bounded by the eligible count |
| `UndoPolicy.UndoTracker.MarkSent` | apps/client/src/drawing/undoPolicy.ts:92-102 | is its transition and keeps timers and `pending` together |
| `UndoPolicy.UndoTracker.SendFailed` | apps/client/src/drawing/undoPolicy.ts:105-108 | is its transition |
| `UndoPolicy.UndoTracker.Confirmed` | apps/client/src/drawing/undoPolicy.ts:111-115 | is its transition |
| `UndoPolicy.UndoTracker.Reset` | apps/client/src/drawing/undoPolicy.ts:118-123 | clears everything and leaves no timer armed |
| `UndoPolicy.UndoTracker.OnTimer` | apps/client/src/drawing/undoPolicy.ts:92-102 | the timer moves its stroke from `pending` to `gaveUp`; a cleared one does nothing |
| `Dedup.TickDedup` | apps/client/src/drift/dedup.ts:323-343 | the loop over the senders yields exactly the expired events in map order and the state after them |
| `DedupDecisions.TickInOrder` | apps/client/src/drift/dedup.ts:323-343 | a tick hands out exactly the events that have waited for 5 s, one per sender, in the order in which the senders were first met |
| `DedupDecisions.SendersInOrder` | apps/client/src/drift/dedup.ts:163-203 | senders are kept in the order in which they were first met |
| `Dedup.SenderIndependence` | apps/client/src/drift/dedup.ts:153-343 | in any merged run one sender's state and outputs are those of its own events and the ticks alone |
| `Dedup.SendersCommute` | apps/client/src/drift/dedup.ts:153-311 | events of different senders commute |
| `Dedup.TickIdempotent` | apps/client/src/drift/dedup.ts:323-343 | a tick leaves nothing parked for 5 s or longer, and a second one at the same time does nothing |
| `Dedup.AppliedInOrder` | apps/client/src/drift/dedup.ts:153-343 | the numbers applied for a sender strictly increase except where a 1 starts a new epoch, a parked one is at least two ahead, and every event handed out is one received under its number |
| `DedupDecisions.DecideExactly` | apps/client/src/drift/dedup.ts:153-311 | each decision exactly when, an unseen sender counting as one with nothing applied: duplicate, restart, next, drained, parked, out of order; and the state it leaves |
| `DedupDecisions.HistoryDecides` | apps/client/src/drift/dedup.ts:153-343 | in every run the slot holds the first event of the largest number received ahead of the gap since something was handed out last, and what is handed out follows from what was received and handed out before |
| `DedupDecisions.AwaitedIsHandedOut` | apps/client/src/drift/dedup.ts:264-343 | an event ahead of the gap, and of what waits already, is handed out by the first tick 5 s later if nothing else comes |
| `DedupDecisions.LateJoinerFollows` | apps/client/src/drift/dedup.ts:190-200 | a viewer who joins late is handed the first event of a sender, numbered 2 or more, by the first tick 5 s later, whatever other senders do |
| `Dedup.ParkedFate` | apps/client/src/drift/dedup.ts:232-311 | exactly when one step discards a parked event: a restart, a newer event parked, or the next number applied while a gap remains |
| `Dedup.PartialFillLoses` | apps/client/src/drift/dedup.ts:232-259 | a partial fill discards a parked event that is still ahead of the gap, and no tick brings it back |
| `Dedup.DisturbedStream` | apps/client/src/drift/dedup.ts:153-343 | from any point of it, a stream the receiver can restore comes out in order, each number with the event that came first under it |
| `Dedup.StreamRestored` | apps/client/src/drift/dedup.ts:153-343 | such a stream 1..n comes out as exactly 1..n, event by event |
| `DedupStreams.BuiltIsDisturbed` | apps/client/src/drift/dedup.ts:153-343 | numbers 1..n sent with disjoint neighbours exchanged, with repeats of arrived numbers above 1 and no tick 5 s late, form such a stream |
| `DedupStreams.ExchangesRestored` | apps/client/src/drift/dedup.ts:153-343 | so they are applied as exactly 1..n, each with the event that arrived first under it |
| `DedupGaps.OpenIsSilent` | apps/client/src/drift/dedup.ts:264-343 | the slot stays occupied exactly while nothing is handed out |
| `DedupGaps.GapEnds` | apps/client/src/drift/dedup.ts:323-343 | a gap is still open after a tick exactly if nothing was handed out since it opened and the event parked last arrived less than 5 s before |
| `DedupGaps.UndisturbedGapEnds` | apps/client/src/drift/dedup.ts:323-343 | a gap in which nothing is parked again ends at the first tick 5 s later |
| `DedupGaps.EveryGapEndsExactlyWhen` | apps/client/src/drift/dedup.ts:281-343 | every gap of a run ends by the first tick 5 s after it opened exactly if no such tick finds its event replaced less than 5 s before |
| `DedupGaps.KeepsParkedExactlyWhen` | apps/client/src/drift/dedup.ts:210-300 | in a run every parked event stays until it is handed out exactly if no step restarts the epoch, replaces it or fills part of its gap |
| `DedupGaps.GapOutlivesTimeout` | apps/client/src/drift/dedup.ts:293-296 | and it fails: a run whose gap opens at 1 ms and is still open after a tick at 10 s |
| `Sorting.SortSorts` | apps/client/src/drift/useClockSkew.ts:92 | sorting gives a sorted rearrangement |
| `Sorting.SortedUnique` | apps/client/src/drift/useClockSkew.ts:92 | the sorted rearrangement is unique |
| `ClockSkew.CollectOffsets` | apps/client/src/drift/useClockSkew.ts:78-88 | the first loop collects the offsets of the accepted probes and counts the others |
| `ClockSkew.SquaredDeviations` | apps/client/src/drift/useClockSkew.ts:106-110 | the second loop sums the squared deviations |
| `ClockSkew.ComputeSkewJitter` | apps/client/src/drift/useClockSkew.ts:68-115 | the measurement: floored median, rounded spread, both counts, and when each is absent |
| `ClockSkew.SkewAccuracy` | apps/client/src/drift/useClockSkew.ts:78-102 | with a constant true offset and non-negative delays the median is within 250 ms of it |
| `ClockSkew.JitterBound` | apps/client/src/drift/useClockSkew.ts:104-113 | under the same assumption the spread is at most 500 ms |
| `ClockSkew.OffsetError` | apps/client/src/drift/useClockSkew.ts:84-87 | the error of a probe is half the difference of its two delays, rounded up, and 0 if they are equal |
| `ClockSkew.ProbesJudged` | apps/client/src/drift/useClockSkew.ts:78-88 | probes are judged one by one: used exactly if the round trip took 0 to 500 ms |
| `ClockSkew.MedianExactly` | apps/client/src/drift/useClockSkew.ts:93-102 | the median is the middle of the two middle elements, rounded down |
| `ClockSkew.SumSquaresExactly` | apps/client/src/drift/useClockSkew.ts:106-110 | the sum of squared deviations, multiplied out |
| `ClockSkew.SpreadExactly` | apps/client/src/drift/useClockSkew.ts:111-113 | the spread is 0 exactly if the mean squared deviation is below a quarter, and its rounded root is unique |
| `Drift.NearIdeal` | apps/client/src/drift/drift.ts:199-245 | a viewer shows the ideal position up to 250 ms, forever |
| `Drift.ProjectionExactly` | apps/client/src/drift/drift.ts:199-212 | a playing room stands until the stamp and then advances 1 ms per ms; a paused one stands still |
| `Drift.AppliedExactly` | apps/client/src/drift/drift.ts:227-245 | which commands move a viewer to the advancing position and which to the frozen one; without a clock estimate nothing is guessed |
| `Drift.DriftIsLead` | apps/client/src/drift/drift.ts:251-259 | the drift is how far the viewer is ahead, absent without a command |
| `Drift.SyncBound` | apps/client/src/drift/drift.ts:199-245 | two viewers applying the same command at different moments stay within 500 ms of each other forever, and exactly together while paused |
| `Drift.PausedExactlyWhen` | apps/client/src/drift/drift.ts:186-193 | a room is paused exactly if a pause was followed by nothing but seeks |
| `Drift.RoomInSync` | apps/client/src/drift/drift.ts:186-245 | after any run of commands two viewers that applied the last one stand still together while the room is paused and otherwise stay within 500 ms, each moving at rate 1 |
| `Drift.OwnDriftZero` | apps/client/src/drift/drift.ts:199-259 | a viewer's own raw drift stays 0 exactly if it applied the command no earlier than the projected server stamp |
| `Drift.SmoothedBetween` | apps/client/src/drift/drift.ts:265-295 | the smoothed drift lies between two of the raw samples |
| `Drift.Converges` | apps/client/src/drift/drift.ts:265-295 | a constant input is approached by a factor 1 - alpha per sample |
| `Drift.PowDecays` | apps/client/src/drift/drift.ts:265-295 | and that factor decays at least like 1/(1 + k alpha) |
| `Drift.SmoothRecords` | apps/client/src/drift/drift.ts:265-295 | what the state records over any samples: the newest raw value, the time of the newest sample, the number of real ones, and a smoothed value from the first real one on |
| `Drift.IndicatorHasCause` | apps/client/src/drift/drift.ts:78-91 | the indicator shows only if a raw sample on the side it points to exceeded the active threshold; severe implies visible at every jitter |
| `Drift.IndicatorExactly` | apps/client/src/drift/drift.ts:78-91 | visible, severe and direction exactly when, with both pairs of thresholds and their boundaries |
| `Drift.IndicatorShows` | apps/client/src/drift/drift.ts:300-339 | and it does show if every real sample lies beyond the threshold on one side |
| `Drift.CollectFresh` | apps/client/src/drift/drift.ts:380-390 | the loop predicts the positions of exactly the fresh, playing participants |
| `Drift.ComputeRoomMedian` | apps/client/src/drift/drift.ts:376-400 | the median of those, absent exactly if there are none |
| `Drift.ReportsJudged` | apps/client/src/drift/drift.ts:380-390 | reports are judged one by one: a playing participant counts exactly if its report is 0 to 10 s old, at the position it has reached since |
| `Drift.ExactMedianExactly` | apps/client/src/drift/drift.ts:392-400 | the median is exactly the middle of the two middle elements |
| `Drift.MedianSplits` | apps/client/src/drift/drift.ts:376-400 | at least half of the predictions lie on each side, and the order of participants does not matter |
| `BearerTable.Db.InsertBearer` | apps/server/src/db.rs:311-356 | a row is added exactly for a known user with a 32-byte key and an unused hash; otherwise the error says which and nothing changes |
| `BearerTable.Db.ValidateBearer` | apps/server/src/db.rs:362-415 | present and not yet expired |
| `BearerTable.Db.ValidateBearerRenewing` | apps/server/src/db.rs:426-450 | renews when less than half a lifetime is left at the second reading; the row moves only if it had not run out by then, the answer always |
| `BearerTable.Db.RevokeBearer` | apps/server/src/db.rs:454-461 | removes exactly that row |
| `BearerTable.Db.PurgeExpiredBearers` | apps/server/src/db.rs:476-484 | removes exactly the expired rows and counts them |
| `BearerTable.InsertThenValidate` | apps/server/src/db.rs:311-415 | what is read back is what was inserted, the 64-bit epoch through its signed column included |
| `BearerLease.RunWellFormed` | apps/server/src/db.rs:311-450 | in every run all stored keys have 32 bytes, so no lookup meets a bad row |
| `BearerLease.Issued` | apps/server/src/db.rs:311-356 | a bearer issued for a lifetime starts fresh and ends after one |
| `BearerLease.StaysFresh` | apps/server/src/db.rs:418-450 | uses less than half a lifetime apart keep at least half a lifetime left |
| `BearerLease.UseLeaves` | apps/server/src/db.rs:418-450 | a use leaves a bearer with half a lifetime left alone, gives one with less exactly one lifetime from its second reading, changes nothing else of the row, and reports what it leaves |
| `BearerLease.InUseStaysValid` | apps/server/src/db.rs:418-450 | such a bearer is found by every use, forever, and by every look within half a lifetime of the last use, whatever else happens short of revoking it |
| `BearerLease.SilenceEnds` | apps/server/src/db.rs:418-450 | a lifetime without a use ends it, however it was looked at meanwhile |
| `BearerLease.RejectedForGood` | apps/server/src/db.rs:362-450 | a bearer once rejected is never accepted again |
| `BearerLease.OthersUntouched` | apps/server/src/db.rs:311-484 | a call leaves every other bearer alone, and a purge every one that has not expired |
| `BearerLease.BindingKept` | apps/server/src/db.rs:311-484 | whatever happens short of issuing it again, a row keeps its user, key, epoch and room |
| `BearerLease.FoundAsIssued` | apps/server/src/db.rs:311-450 | whoever finds a bearer is told the user, key, epoch and room it was issued for |
| `BearerLease.RenewalsApart` | apps/server/src/db.rs:437-447 | two renewals are more than half a lifetime apart |
| `BearerLease.PurgesInvisible` | apps/server/src/db.rs:476-484 | purging at any moments changes no reply to any other call exactly if no hash is issued again after its expired row was purged |
| `BearerLease.IssuedOnceNeverReissues` | apps/server/src/db.rs:311-356 | which holds if each hash is issued once |
| `BearerLease.PurgeLetsReissue` | apps/server/src/db.rs:476-484 | and without that it fails: the second insertion is accepted after a purge and refused without one |
| `BearerLease.LostRenewal` | apps/server/src/db.rs:434-447 | the returned expiry differs from the stored one exactly if the bearer ran out between the two clock readings, and then the next look rejects it |
| `BearerLease.RenewalIsLost` | apps/server/src/db.rs:434-447 | and it happens: a use at 99 and 100 ms of a bearer issued for 100 ms reports 200 ms, and the next look finds nothing |

## Left out

- The room registry, WebSocket dispatch, rate limiter, download scheduler and drawing
  store, and the callers that pass messages between the modelled parts.
- SQL text, connection pools, migrations and row decoding of `db.rs`: the table is a
  map and a call is atomic. Rows with an id that is not a UUID are not modelled.
- `created_ms`, `user_identities` maintenance and resume tokens: no lease property
  depends on them.
- React components and hooks, canvas rendering, the timer and frame services of the
  browser: a frame or timer is an event.
- SHA-256, BLAKE3, Ed25519, NFC tables and the `serde_json` decoder of manifests:
  parameters. `encode_manifest` and `commit` are thin calls of them.
- Floating point: milliseconds are integers, positions and smoothed values reals; the
  square root of the jitter is its exact rounded value. Rounding errors are not
  modelled. Non-finite pointer coordinates are.
- Integer overflow of `i64` millisecond sums in `db.rs` and of 64-bit lengths: both are
  unbounded here; the declared limits (32 MiB, 1024 pieces) keep the transport far
  below them.
- The length test on a piece counts characters where the program counts UTF-8 bytes;
  text with other than ASCII characters is refused as base64 with the same error either
  way.
- `idle`, `dispose` and `queuedSendCount` of the drawing session and the error reports
  (`onError`): they observe the queue and change nothing in it.
- `serialize_i128` and `serialize_u128`, which `serde` refuses by default, and errors of
  the JSON writer, which cannot occur when writing to a buffer.
- Tuple and struct variants are collected by `Collect` but have no class of their own:
  their buffers are those of `SeqSerializer` and `StructSerializer`.
- `computeDriftVsMedian` and `computeSyncTarget`: one-branch expressions over what
  `Drift` proves.
- JsonText.ParsePrint: the reader accepts exactly what the printer writes
  (`JsonText.ParseExact`), not all of RFC 8259 (no white space, fractions or optional
  escapes), because its purpose is to undo the printer.
- BearerLease.LostRenewal: stated for lifetimes of at least 2 ms, because half of 1 ms
  rounds to 0 and such a bearer is never renewed at its last moment.
- AssemblyDelivery.Delivery: whether the budget grants the start is part of the run it
  describes, because it depends on other connections.
- PartAssembler.ByteBudget.Reserve: the object has no other threads, so its loop never
  retries; the loop under interference is modelled on values in `SharedBudget`.
- PartAssembler.PartAssembler.Push: other threads' use of the budget during one push is
  not in the object's contract, because `SharedBudget` covers all interleavings on
  values.
