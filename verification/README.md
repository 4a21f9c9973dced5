# A verified model of the tamper-evident audit log

Open Shield records every decision and every administrative change in an append-only log. One writer
normalises each payload, seals the entry over a canonical encoding, links it to the hash before it and
stores it; a verifier walks the chain again. This project models that core in Dafny, together with the
smaller machines beside it (the request limiter, the sign-in throttle, address attribution, listing
and the live feed), and proves what they promise for all inputs and over all runs.

`dafny verify dfyconfig.toml` checks everything.

## How it is laid out

| files | what they hold |
|---|---|
| `Wrappers`, `Bytes`, `Text` | results; length-prefixed fields, hexadecimal, UTF-8 and byte order; trimming |
| `Json`, `JsonParser`, `JsonRoundTrip`, `JsonDepth`, `JsonLayout` | the JSON values Go sees, the texts `encoding/json` prints, a parser for sections 4 to 7 of RFC 8259, the round trip between them, the decoder's depth limit, and text laid out in other ways |
| `Canonical`, `CanonicalText`, `CanonicalWriter` | the canonical encoder: as a function, what its text means, and as loops over a buffer and sorted keys |
| `AuditEntry`, `Chain`, `Ranges` | the digest input and the hash; the walk, tamper evidence and where tampering is reported; verification of a time range in memory and in SQL |
| `AuditWriter`, `WriterPipe`, `WriterSafety`, `WriterTheorems`, `WriterReplies`, `WriterLoop` | the writer as a transition system, its invariants, its promises over whole runs, what its callers are told, and its code as a class |
| `AuditBeforeApply` | dashboard handler, HTTP, engine, writer, store and reply, then the configuration change |
| `RateLimit`, `LoginLimiter`, `ClientAddress`, `Listing`, `LiveFeed` | the machines beside the log |

SHA-256 is a parameter `H`, any function from byte strings to 32 bytes, with nothing assumed about it.
Every tamper-evidence theorem is a reduction: the conclusion holds, or two of the *given* entries have
different digest inputs with equal `H` (`Collide`), or one of them hashes to 32 zero bytes
(`HashesToZero`), which is what the 64 zeros of the genesis hash would need. "Some collision exists
somewhere" is never accepted as an escape. `Storable` entries are those a store can return: a
normalised payload, and fields short enough for a 64-bit length.

The writer's transition system lets everything interleave: any number of `Record` and `RecordSync`
callers step by step through the read lock, the look at `closed`, the send and the wait; `Close`; the
consumer's normalising, sealing, storing, advancing, publishing and answering; give-ups, failed stores,
death of the process at any moment, and restart. The store answers `Committed`, `Rejected` or
`Unacknowledged`, the last being an append that took effect although an error came back.

## Where the code does less than it says

Each of these is proved, with the exact condition under which the promise does hold.

- **An append that errs may have been stored.** The writer leaves its head alone after an error, on the
  ground that nothing was stored (internal/audit/writer.go:219-221). With a store that keeps that
  assumption the log verifies in every reachable state (`LogAlwaysVerifies`). With any store whose appends
  take effect, if they do, before it answers anything else, the log verifies exactly unless something is
  appended while the head is behind (`LogVerifiesUnlessForked`),
  and `UnacknowledgedAppendForks` builds such a run, whose log fails the walk at its second entry: a
  commit whose acknowledgement is lost to the five-second timeout is enough.
- **SQL range verification can raise a false alarm.** Timestamps are taken by the caller before the
  queue, so they need not rise in append order. The in-memory walk accepts an intact log for every range
  (`MemoryNeverFalseAlarm`). The SQL walk accepts it exactly when the entries in range are the stretch
  right after the anchor (`SqlVerifyExact`); `SqlFalseAlarm` is an untouched log of two entries that it
  reports as broken. The comment that the memory store anchors "exactly as the SQL store does"
  (internal/audit/memory.go:45) holds for logs in time order (`RangeWalksAgree`).
- **In-memory range verification can overlook an entry.** Every hash in the range is to be recomputed
  (internal/audit/repository.go:31-34), but the walk stops at the first entry past `to`. It looks at
  every entry in range exactly when none of them comes after one past it (`MemoryCoversExactly`), and
  `MemoryOverlooks` is a log, stamped 2, 5 and 3, whose last entry can be replaced by anything stamped 3
  without the walk up to 4 noticing.
- **A range can be edited unnoticed, in either store.** The timestamp is hashed, but it also decides what
  a range holds. An edit that keeps link and hash is noticed by the in-memory walk exactly when, as the
  log then stands, nothing up to and including the edited entry lies past the range and not everything
  up to it lies before the range (`MemoryNoticesExactly`). The SQL walk notices it exactly when its new
  timestamp is in range or the rows then selected are not the stretch right after the anchor
  (`SqlNoticesExactly`). `RestampUnnoticed` moves an edited entry out of the range and both walks accept;
  the walk over the whole log notices every edit (`EditLocated`).
- **A named string type is hashed HTML-escaped, and a nil slice or map as an empty one.** The scalar
  branch of the encoder's default case goes through `json.Marshal`; a nil `[]any` or map matches the type
  switch and is written `[]` or `{}`, while its normal form is null. Encoding a value and encoding its
  normal form agree exactly when no named string holds `<`, `>` or `&`, no nil slice or map stands
  outside a named type, and the encoder accepts the value at all, which for a value that has a normal
  form means that no number literal is empty (`CanonicalOfNormalFormExact`, `NamedStringDisagrees`,
  `NilSliceDisagrees`). The writer normalises before it seals, so stored entries are not affected.
- **The two stores list in different orders.** The in-memory listing breaks ties in append order, the
  SQL listing sorts by falling append position. They agree exactly when the timestamps of the matching
  entries strictly rise in append order (`OrdersAgreeExactly`, `TiesListApart`).
- **A sign-in cap below one still lets an attempt through** in every window. The bound of twice the cap
  holds exactly for caps of at least one (`PromiseExact`); the dashboard uses ten. That bound is for
  attempts one after another: with up to k in flight at once, k - 1 more can slip through per record
  (`ParallelGuessesBounded`).
- **Cutting the tail off** leaves a log that verifies (`TruncationUndetected`), as the documentation
  says; `SelectionIsPrefix` shows that among selections of entries nothing else does.

## Model

| member | source | states |
|---|---|---|
| `ByteStrings.FieldPrefixFree` | internal/model/audit.go:64-71 | length-prefixed fields cannot be split in another way |
| `ByteStrings.FieldsInjective` | internal/model/audit.go:64-71 | equal concatenations of equally many fields mean equal fields |
| `ByteStrings.BigEndianReads` | internal/model/audit.go:67-68 | reading the bytes, most significant first, gives the number back, for every number that fits |
| `ByteStrings.FieldReads` | internal/model/audit.go:64-71 | a field is eight bytes that read as its length, most significant first, and then its own bytes |
| `ByteStrings.HexReads` | internal/model/audit.go:61 | reading two digits for each byte, the high one first, 0 to 9 and a to f, gives the bytes back |
| `ByteStrings.LessExact` | internal/model/canonical.go:113 | one byte string is before another if and only if, after equally many equal bytes, it ends and the other goes on or its next byte is smaller |
| `ByteStrings.LeadingCodePointCorrect` | internal/model/canonical.go:136-146 | decoding the one to four bytes of a character, six bits for each continuation byte, gives its code point back |
| `ByteStrings.Utf8Injective` | internal/model/canonical.go:136-146 | texts with the same bytes are the same text |
| `Json.KeyListingUnique` | internal/model/canonical.go:108-113 | a set of keys has one listing in byte order, so map iteration order cannot show |
| `Json.KeysInByteOrder` | internal/model/canonical.go:108-113 | the listing has exactly the keys, each before every later one by the first byte in which they differ |
| `Json.EscapeForm` | internal/model/canonical.go:136-146 | a character stands for itself, has a two-character escape, or is written as four lower-case hexadecimal digits |
| `Json.NumberGrammar` | internal/model/canonical.go:171-183 | the number literals are exactly those of section 6 of RFC 8259: sign, digits without a leading zero, fraction, exponent |
| `JsonRoundTrip.ParsePrinted` | internal/model/canonical.go:28-146 | parsing what any of the three printers writes gives back the data the text shows, nil slices and maps shown as null or as empty, and leaves the rest of the text untouched, at every depth the decoder allows |
| `JsonRoundTrip.ParseQuoted` | internal/model/canonical.go:136-146 | a quoted string, with or without HTML escapes, reads back as itself |
| `JsonRoundTrip.UnitReads` | internal/model/canonical.go:187-201 | four hexadecimal digits of either case are a 16-bit unit, the most significant first |
| `JsonRoundTrip.SurrogatePairReads` | internal/model/canonical.go:187-201 | two escaped surrogates in a row are the character UTF-16 encodes with them |
| `JsonRoundTrip.LoneSurrogateReads` | internal/model/canonical.go:187-201 | any other escaped surrogate is read as U+FFFD, and what follows it for itself |
| `JsonRoundTrip.ShortEscapesRead` | internal/model/canonical.go:187-201 | what each of the eight two-character escapes means |
| `Canonical.ParsedIsNormal` | internal/model/canonical.go:171-201 | whatever the decoder accepts is a normalised value: number literals well formed, no named types, bounded depth |
| `Canonical.ScannedIsNumber` | internal/model/canonical.go:171-183 | the literal the scanner cuts off is itself a complete JSON number |
| `Canonical.NormalizeKeepsData` | internal/model/canonical.go:171-183 | normalising an encodable value succeeds and yields exactly its data |
| `Canonical.NormalizeFixesNormal` | internal/model/canonical.go:156-183 | normalising a normal value changes nothing |
| `CanonicalText.WriteNormal` | internal/model/canonical.go:28-130 | on normalised values the encoder never fails and writes the plain text, HTML characters unescaped |
| `JsonDepth.TooDeepFails` | internal/model/canonical.go:171-201 | text that nests deeper than the decoder allows is refused, whatever follows it |
| `JsonDepth.NormalizeExact` | internal/model/canonical.go:171-183 | normalising any value yields exactly its data, or an error if and only if the value cannot be printed and read back within the depth limit |
| `JsonLayout.ShownReads` | internal/model/canonical.go:187-201 | decoding ignores white space after commas and colons, the order of members and the way characters are escaped: however a normal value is laid out, it is read back |
| `JsonLayout.SpacedIsLayout` | internal/model/canonical.go:187-201 | one blank after each comma and colon, as `jsonb` has, is such a layout |
| `JsonLayout.LaterMemberCounts` | internal/model/canonical.go:187-201 | of two members with one key the later is kept |
| `CanonicalText.WriteAny` | internal/model/canonical.go:28-106 | on every value, at any depth: the exact text, or an error if and only if a number literal is empty, a value is one `encoding/json` refuses, or a named type cannot be printed and read back |
| `CanonicalText.CanonicalVersusPlain` | internal/model/canonical.go:85-105 | the canonical text is the plain one with nil slices and maps shown as empty, or strictly longer when a named string needs HTML escapes |
| `CanonicalText.CanonicalOfNormalFormExact` | internal/model/canonical.go:85-105 | a normal form exists if and only if the value can be printed and read back, and then encoding the value and encoding its normal form agree if and only if the encoder accepts it, no named string holds an HTML character and no nil slice or map stands outside a named type |
| `CanonicalText.NamedStringDisagrees` | internal/model/canonical.go:92-102 | a named string "<" is encoded differently from its normal form |
| `CanonicalText.NilSliceDisagrees` | internal/model/canonical.go:62-83 | a nil slice is encoded differently from its normal form |
| `CanonicalText.NormalizePayload` | internal/model/canonical.go:156-169 | a payload that normalises is one the store can return |
| `CanonicalText.DecodePayload` | internal/model/canonical.go:187-201 | what decodes is normal; empty text is the empty payload |
| `CanonicalText.DecodePrinted` | internal/model/canonical.go:187-201 | of the text of any value: an object gives its members, null the empty payload, and everything else is refused |
| `CanonicalText.NormalizePayloadKeepsData` | internal/model/canonical.go:156-169 | normalising keeps every member's data, fails if and only if the payload cannot be printed and read back, and is idempotent |
| `CanonicalText.StoreRoundTrip` | internal/model/canonical.go:187-201 | decoding the canonical text of any normalised payload gives back exactly that payload |
| `CanonicalText.StoreLayoutReads` | internal/model/canonical.go:187-201 | so does decoding any text a store may lay the payload out as |
| `CanonicalText.TwoMembersText` | internal/model/canonical.go:108-130 | the text itself, character by character, of an object of two strings: the key with the smaller byte at the first difference comes first, whatever order they were given in |
| `CanonicalText.CanonicalInjective` | internal/model/canonical.go:20-146 | normalised payloads with equal canonical texts are equal |
| `CanonicalWriter.SortKeys` | internal/model/canonical.go:108-113 | the collected keys come out in byte order, each once, whatever order they were collected in; byte order by the first byte that differs |
| `CanonicalWriter.WriteTo` | internal/model/canonical.go:28-106 | the recursive writer appends exactly the canonical text to the buffer, or fails exactly when it must, and terminates |
| `CanonicalWriter.WriteItemsTo` | internal/model/canonical.go:59-70 | the loop over array elements writes them joined by commas |
| `CanonicalWriter.WriteObjectTo` | internal/model/canonical.go:108-130 | keys are collected in any order, sorted, and written as an object |
| `CanonicalWriter.WriteMembersTo` | internal/model/canonical.go:116-128 | the loop over the sorted keys writes the members joined by commas |
| `CanonicalWriter.CanonicalJSON` | internal/model/canonical.go:20-26 | the text returned is the canonical text, or the error |
| `AuditEntries.Digest.WriteField` | internal/model/audit.go:66-71 | each write extends the digest input by eight bytes that read as the length, most significant first, and the bytes themselves |
| `AuditEntries.HashEntry` | internal/model/audit.go:45-62 | feeding the six fields into a running digest yields the specified hash, the marker standing in for a payload that cannot be encoded |
| `AuditEntries.HashReads` | internal/model/audit.go:55-62 | the hash, read as hexadecimal, is the digest of the six fields |
| `AuditEntries.MarkerSpells` | internal/model/audit.go:46-52 | the marker is a zero byte and the letters of its word |
| `AuditEntries.Sealed` | internal/model/audit.go:75-82 | sealing sets the link (genesis for an empty head) and the matching hash and changes nothing else |
| `AuditEntries.MarkerIsNoPayload` | internal/model/audit.go:46-52 | the marker equals the encoding of no payload that can be encoded |
| `AuditEntries.PreimageDeterminesFields` | internal/model/audit.go:45-71 | equal digest inputs mean equal previous hash, id, request id, instant and kind, and payloads encoded alike or both beyond encoding |
| `AuditEntries.PreimageInjective` | internal/model/audit.go:45-71 | between stored entries the digest input is one-to-one: equal if and only if the entries agree outside the hash |
| `AuditEntries.HashSurvivesStore` | internal/model/audit.go:45-62 | the hash recomputed after a store round trip is the sealed one |
| `AuditEntries.HashSurvivesLayout` | internal/model/audit.go:45-62 | and still is when the store lays the text out in its own way, as `jsonb` does |
| `AuditEntries.GenesisMeansZero` | internal/model/audit.go:11-13 | only an all-zero digest is written as the genesis hash |
| `Chain.ChainWalker.constructor` | internal/audit/verify.go:33-38 | an empty anchor means genesis |
| `Chain.ChainWalker.Step` | internal/audit/verify.go:43-73 | one step checks the link, then the content, counts the entry, and moves on only if both hold; a break is reported by the entry's id and timestamp, its 1-based place and the reason |
| `Chain.ChainWalker.Run` | internal/audit/verify.go:43-78 | walking entries one by one gives the specified report |
| `Chain.WalkExact` | internal/audit/verify.go:33-78 | the walk says intact if and only if the entries are one unbroken chain from the anchor, and counts them all |
| `Chain.WalkStopsAt` | internal/audit/verify.go:43-73 | after a good prefix the first bad entry is reported: its id, its timestamp, its 1-based place, as many entries checked, and the reason |
| `Chain.SameHashSamePrefix` | internal/audit/verify.go:33-62 | places with the same hash in two verifying logs have the same entries before them, equally many, or the hash is broken on these entries |
| `Chain.SameHeadSameLog` | internal/audit/verify.go:33-62 | two logs that verify and end in the same hash are equal, whatever their lengths, or the hash is broken on their entries |
| `Chain.PlaceByLink` | internal/audit/verify.go:43-62 | an entry of an intact log can only stand where the hash before it says |
| `Chain.SelectionIsPrefix` | internal/audit/verify.go:43-62 | entries of an intact log, deleted, repeated or reordered in any way, verify from genesis only as a prefix of it |
| `Chain.EditLocated` | internal/audit/verify.go:43-73 | editing the content of entry i is reported at position i+1 as modified content, naming its id, or the two entries collide |
| `Chain.RelinkLocated` | internal/audit/verify.go:43-73 | rewriting the link of entry i is reported at position i+1 as a broken link, naming its id, unconditionally |
| `Chain.ResealLocated` | internal/audit/verify.go:43-73 | editing and re-sealing a non-last entry i is reported at position i+2, naming the id of its successor, or the two entries collide |
| `Chain.DeletionLocated` | internal/audit/verify.go:43-73 | deleting a non-last entry i is reported at position i+1, naming the id of its successor, or the hash is broken on the log's entries |
| `Chain.TruncationUndetected` | docs/filtering-coverage-findings.md:201-204 | every prefix of an intact log verifies |
| `Ranges.VerifyMemory` | internal/audit/memory.go:41-71 | the two loops (anchor, then walk up to the end of the range) compute the specified result |
| `Ranges.WalkMemory` | internal/audit/memory.go:56-70 | the walking loop stops at the first entry past the range or at the first break |
| `Ranges.VerifyRows` | internal/audit/postgres.go:93-129 | streaming the selected rows from the anchor gives the specified result |
| `Ranges.MemoryStretch` | internal/audit/memory.go:44-67 | both bounds are inclusive: the walk starts at the first entry not stamped before `from` and ends before the first one after that stamped past `to` |
| `Ranges.RowsWithin` | internal/audit/postgres.go:311-328 | the rows are exactly the entries stamped from `from` to `to`, both included |
| `Ranges.AnchorIsLastBefore` | internal/audit/postgres.go:133-148 | the anchor is the last entry stamped before `from`, or genesis |
| `Ranges.RangeWalksAgree` | internal/audit/postgres.go:93-148 | on every log, broken or not, with timestamps that never decrease, both stores report the same for every range |
| `Ranges.WholeFromParts` | internal/audit/memory.go:44-70 | the whole log is intact if and only if the part before `from` and the anchored part from `from` on both are |
| `Ranges.StretchIntact` | internal/audit/memory.go:56-70 | any stretch of an intact log walks as intact under the hash before it |
| `Ranges.MemoryNeverFalseAlarm` | internal/audit/memory.go:41-71 | an intact log passes the in-memory walk for every range, whatever its timestamps |
| `Ranges.MemoryCoversExactly` | internal/audit/memory.go:41-71 | the in-memory walk looks at every entry in range if and only if none of them comes after one past the range |
| `Ranges.MemoryNoticesExactly` | internal/audit/memory.go:41-67 | in an intact log, any edit that keeps link and hash, timestamp included, is noticed if and only if nothing up to and including the edited entry then lies past the range and not everything up to it lies before the range |
| `Ranges.MemoryNoticesUnmoved` | internal/audit/memory.go:56-67 | an edit that keeps the timestamp, of an entry in range, is noticed if and only if no entry before it lies past the range |
| `Ranges.SqlNoticesExactly` | internal/audit/postgres.go:93-148 | in an intact log, any edit that keeps link and hash is noticed by the SQL walk if and only if its new timestamp is in range or the rows then selected are not the stretch right after the anchor |
| `Ranges.SqlNoticesInRange` | internal/audit/postgres.go:93-129 | an edit whose new timestamp is in range is always noticed |
| `Ranges.RestampUnnoticed` | internal/audit/postgres.go:311-328 | an entry edited and stamped out of the range, which both walks accept |
| `Ranges.MemoryOverlooks` | internal/audit/memory.go:57-60 | a log whose last entry, in range, can be replaced by anything with its timestamp unnoticed |
| `Ranges.SqlVerifyExact` | internal/audit/postgres.go:93-148 | the SQL walk accepts an intact log if and only if the entries in range are the stretch right after the anchor |
| `Ranges.SqlFalseAlarm` | internal/audit/postgres.go:133-148 | an untouched log that the in-memory walk accepts and the SQL walk reports as broken |
| `WriterSafety.InvStep` | internal/audit/writer.go:83-277 | every step of every caller, the consumer, `Close`, death and restart keeps all invariants of queue, counters, contents, chain, lock, calls and replies |
| `WriterSafety.ReplyNeverBlocks` | internal/audit/writer.go:193-201 | the reply channel is empty whenever the consumer is about to answer |
| `WriterTheorems.LogAlwaysVerifies` | internal/audit/writer.go:83-116 | with a store that keeps nothing it reports as failed, every reachable log verifies from genesis, and between appends the writer's head is the store's |
| `WriterTheorems.LogVerifiesUnlessForked` | internal/audit/writer.go:203-238 | with any store whose appends take effect, if they do, before it answers anything else: the log of a run verifies if and only if nothing was appended while the head was behind, read off the run's actions |
| `WriterTheorems.UnacknowledgedAppendForks` | internal/audit/writer.go:218-227 | a run of the system whose log fails the walk at its second entry, or whose first entry hashes to zero |
| `WriterTheorems.OrderAndConservation` | internal/audit/writer.go:125-249 | what a process adds is what it accepted, in queue order, failures removed; accepted is written plus failed plus queued plus in hand; every `Record` call is accepted or counted as dropped |
| `WriterTheorems.NoSendOnClosedQueue` | internal/audit/writer.go:125-177 | whoever is about to send finds the queue open |
| `WriterTheorems.ExactlyOneReply` | internal/audit/writer.go:193-201 | replies are, in order, one for each settled synchronous item, saying whether it was stored, and no reply blocks |
| `WriterTheorems.SyncSuccessIsDurable` | internal/audit/writer.go:154-177 | `RecordSync` returns nil only for an entry that is in the log and records what was asked, a different one for every caller |
| `WriterTheorems.ConsumerNeverStuck` | internal/audit/writer.go:193-201 | in every reachable state with a live process: while an accepted item is unsettled or a caller is stuck on a full queue, the consumer has not left and has an enabled step |
| `WriterTheorems.CloseDrains` | internal/audit/writer.go:263-277 | once closed, whatever fails and however the rest interleaves: nothing more is accepted, the consumer's remaining steps are bounded, it can always take one until it leaves, and when it leaves every accepted item is settled |
| `WriterReplies.ReplyTellsOutcome` | internal/audit/writer.go:154-177 | in every reachable state: a caller whose entry was accepted, and that neither gave up nor died with its process, is told nil if the entry was committed and the error if it was not, and has emptied its reply channel |
| `WriterReplies.ResultsHaveCauses` | internal/audit/writer.go:125-177 | in every run each result has its cause: closed means the writer was closed before, giving up that the caller gave up; a call of `Record` is accepted, dropped or dies, and one of `RecordSync` is never accepted or dropped silently |
| `WriterReplies.EveryDropIsCounted` | internal/audit/writer.go:125-143 | the counters grow by one when a call of `Record` ends, as a drop exactly if it was dropped, and at no other step of a caller |
| `WriterReplies.DropsAreForced` | internal/audit/writer.go:125-143 | only a closed writer or a full queue drops, and what is accepted is put at the end of the queue |
| `WriterReplies.ClosedExactly` | internal/audit/writer.go:263-277 | in every run the writer is closed if and only if `Close` has closed it since the process was started |
| `WriterReplies.CloseCanRun` | internal/audit/writer.go:263-277 | with nobody at the read lock, `Close` can run its course, after which the writer is closed and nothing else has changed |
| `WriterReplies.DeathAndRestart` | internal/audit/writer.go:83-116 | a process started after another died has the log as it was, and no call that was under way is ever answered |
| `WriterReplies.RecordSyncCanSucceed` | internal/audit/writer.go:154-177 | from every reachable state of a running, idle writer, a call for an entry that normalises can end with nil, its entry stored as asked |
| `WriterLoop.NewWriter` | internal/audit/writer.go:83-116 | fails if and only if the repository is missing or its head cannot be read; otherwise the writer starts at the log's head, in step with an intact log |
| `WriterLoop.Writer.constructor` | internal/audit/writer.go:83-116 | resumes any log at its last hash, genesis for none or an empty one, so an intact log is resumed in step; the default queue size for a size that is not positive |
| `WriterLoop.Writer.Record` | internal/audit/writer.go:125-143 | queued exactly if open and not full, otherwise counted as dropped |
| `WriterLoop.Writer.Append` | internal/audit/writer.go:203-238 | one entry recording the draft, sealed on the head, or none; the head advances and the write counts only on success; log and head stay in step unless an error hides a stored entry |
| `WriterLoop.Writer.Receive` | internal/audit/writer.go:193-201 | one turn of the loop settles the next item: stored or not, answered, counted |
| `WriterLoop.Writer.Run` | internal/audit/writer.go:193-201 | with any calls of `Record` between any two receives and any answers of the store: accepted plus dropped is what was called, what is added to the log is exactly the accepted items that reached the store, in order; each waiter is answered once; nothing is left; log and head stay in step unless an error hides a stored entry |
| `AuditBeforeApply.BuildAdminPayload` | dashboard/api/internal/httpapi/auditclient.go:40-52 | whatever order the details come in, they never replace actor or action |
| `AuditBeforeApply.WireRoundTrip` | engine/internal/httpapi/httpapi.go:205-234 | what the engine decodes is what the dashboard sent, HTML escapes and all |
| `AuditBeforeApply.PostedDraftNames` | engine/internal/httpapi/httpapi.go:205-234 | from the handler's details through marshalling, decoding and normalising, the stored entry has kind "admin" and names the actor, the action ("rule.set_enabled", "ipblock.add" or "ipblock.delete"), the target and the address the change came from |
| `AuditBeforeApply.NamesOneKind` | dashboard/api/internal/httpapi/httpapi.go:302-424 | one entry never speaks of two kinds of change, two actors or two addresses |
| `AuditBeforeApply.SystemStep` | dashboard/api/internal/httpapi/httpapi.go:302-424 | every move of the combined system keeps the protocol's invariant |
| `AuditBeforeApply.EveryChangeIsOnRecord` | dashboard/api/internal/httpapi/httpapi.go:302-424 | in every run, with lost replies, timeouts, store failures, give-ups and restarts, each change that took effect was preceded in the log by an entry of its own naming the same actor, action, target and address: no entry serves two changes, not even two that are alike |
| `AuditBeforeApply.ChangeCanTakeEffect` | dashboard/api/internal/httpapi/httpapi.go:302-424 | while the engine is up and idle, any change can be recorded and then take effect |
| `AuditBeforeApply.AnyChangeCanBeFirst` | dashboard/api/internal/httpapi/httpapi.go:302-424 | from the start there is a run in which a given change is the first to take effect, after its entry, the first in the log |
| `RateLimit.Redis.SlidingWindow` | engine/internal/ratelimit/ratelimit.go:28-48 | the script's commands, in order, amount to the specified step |
| `RateLimit.AgreesStep` | engine/internal/ratelimit/ratelimit.go:35-47 | one evaluation keeps the pruned, expiring sets showing what the full history has in the window, from now on |
| `RateLimit.PruningAndExpiryInvisible` | engine/internal/ratelimit/ratelimit.go:35-47 | over every orderly run, verdicts and counts are those of a limiter that forgets nothing |
| `RateLimit.BudgetHolds` | engine/internal/ratelimit/ratelimit.go:28-48 | any half-open interval of one window length holds at most `limit` allowed requests |
| `RateLimit.SlidingWindowExact` | engine/internal/ratelimit/ratelimit.go:98-122 | the script keeps that budget, and refuses a request if and only if `limit` were allowed in the window ending at it |
| `LoginLimiter.Limiter.Allow` | dashboard/api/internal/httpapi/support.go:44-59 | sweeps, answers from the standing record, drops an expired one |
| `LoginLimiter.Limiter.Fail` | dashboard/api/internal/httpapi/support.go:61-71 | counts the failure or opens a new record |
| `LoginLimiter.Limiter.Reset` | dashboard/api/internal/httpapi/support.go:73-77 | forgets the address and nothing else |
| `LoginLimiter.Limiter.Sweep` | dashboard/api/internal/httpapi/support.go:81-90 | from 1024 records on, removes exactly the expired ones |
| `LoginLimiter.SweepInvisible` | dashboard/api/internal/httpapi/support.go:79-90 | over every run in time order, a throttle that sweeps answers every check as one that never does |
| `LoginLimiter.FewFailuresPass` | dashboard/api/internal/httpapi/support.go:44-59 | an address without a standing record, or with fewer failures under it than the maximum, is let through |
| `LoginLimiter.ParallelGuessesBounded` | dashboard/api/internal/httpapi/httpapi.go:122-145 | with at most k attempts of one address in flight at once, whatever other addresses do, any closed span of one window holds at most 2 * (max + k - 1) failed sign-ins let through from it, a maximum below one counting as one |
| `LoginLimiter.GuessesBounded` | dashboard/api/internal/httpapi/support.go:44-71 | the case of one attempt at a time: at most twice the maximum |
| `LoginLimiter.PromiseExact` | dashboard/api/internal/httpapi/support.go:44-59 | twice the configured maximum bounds every run if and only if the maximum is at least one |
| `Text.TrimSpaceSplits` | internal/audit/memory.go:199-208 | exactly the blanks at both ends are removed |
| `Text.TheSpaces` | internal/audit/memory.go:199-208 | the blanks are the ones `unicode.IsSpace` names |
| `ClientAddress.SplitPieces` | dashboard/api/internal/httpapi/support.go:136 | splitting at commas loses nothing and leaves no comma in a piece |
| `ClientAddress.Contains` | dashboard/api/internal/httpapi/support.go:109-116 | true if and only if some trusted network holds the address |
| `ClientAddress.ClientIP` | dashboard/api/internal/httpapi/support.go:125-151 | for a trusted peer the rightmost entry that is malformed or untrusted decides, and the peer if there is none; otherwise the peer |
| `ClientAddress.PrefixIgnored` | dashboard/api/internal/httpapi/support.go:118-151 | a header holding an entry that is malformed or untrusted is attributed alike whatever text is put in front of it |
| `ClientAddress.EdgeAppends` | dashboard/api/internal/httpapi/support.go:118-151 | the untrusted address a trusted edge appends is the answer whatever the client wrote before it |
| `ClientAddress.TrustedHopsPass` | dashboard/api/internal/httpapi/support.go:136-149 | appending on the right an entry that is stepped over changes nothing |
| `ClientAddress.BlankSteppedOver` | dashboard/api/internal/httpapi/support.go:136-140 | a blank entry at the right end changes nothing |
| `ClientAddress.TrustedSteppedOver` | dashboard/api/internal/httpapi/support.go:141-149 | nor does one that spells an address inside a trusted network |
| `ClientAddress.MalformedGivesPeer` | dashboard/api/internal/httpapi/support.go:141-144 | one that is neither blank nor an address makes the peer the answer, whatever stands before it |
| `ClientAddress.NeverTrusted` | dashboard/api/internal/httpapi/support.go:125-151 | every answer is the peer or an address outside the trusted networks that the header spells |
| `ClientAddress.TrustNobody` | dashboard/api/internal/httpapi/support.go:125-134 | with nobody trusted the header is never believed |
| `Listing.Normalized` | internal/audit/repository.go:73-84 | a limit that is not positive becomes 50, one above 500 becomes 500, a negative offset becomes 0, and nothing else changes |
| `Listing.Memory.Append` | internal/audit/memory.go:25-30 | the log grows by the entry at its end |
| `Listing.Memory.Head` | internal/audit/memory.go:32-39 | the last hash, or genesis |
| `Listing.Memory.List` | internal/audit/memory.go:73-98 | the requested page of the ordered matches |
| `Listing.Memory.Count` | internal/audit/memory.go:100-111 | the number of matches, paging ignored |
| `Listing.NewestFirst` | internal/audit/memory.go:85-88 | the stable sort by falling timestamp |
| `Listing.HandleEvents` | dashboard/api/internal/httpapi/httpapi.go:196-225 | page, total, and the limit and offset actually applied |
| `Listing.ListedExact` | internal/audit/memory.go:73-98 | the listing is the one sequence that has each matching entry once, newest first with ties in append order, and nothing else |
| `Listing.ListedSatisfy` | internal/audit/memory.go:174-208 | an entry is listed if and only if its kind, its request id, the trimmed text under "verdict", "ip" and "rule", and its timestamp, bounds included, are what the filter asks for |
| `Listing.PagingComplete` | dashboard/api/internal/httpapi/httpapi.go:196-225 | for every requested limit, stepping by the reported limit up to the reported total yields the whole listing, without gap or repeat |
| `Listing.RequestedLimitExact` | internal/audit/repository.go:66-84 | stepping by the requested limit instead is complete if and only if it was not cut down or one page holds everything |
| `Listing.OrdersAgreeExactly` | internal/audit/postgres.go:150-177 | memory and SQL list the same matches in the same order if and only if their timestamps strictly rise in append order |
| `Listing.TiesListApart` | internal/audit/memory.go:85-88 | two matches of one instant are enough for the orders to differ |
| `LiveFeed.Hub.Add` | dashboard/api/internal/ws/hub.go:89-93 | registers a client whose `done` is open |
| `LiveFeed.Hub.Remove` | dashboard/api/internal/ws/hub.go:95-102 | closes `done` only on the first call for a client |
| `LiveFeed.Hub.CloseAll` | dashboard/api/internal/ws/hub.go:104-111 | closes each registered client once and forgets all |
| `LiveFeed.Hub.Broadcast` | dashboard/api/internal/ws/hub.go:69-80 | every client with fewer than 128 events waiting gets the event as its last, and the others are skipped |
| `LiveFeed.WireStep` | internal/events/events.go:81-108 | whatever happens, the way from the publisher to one browser stays as it is or loses one message |
| `LiveFeed.BrowsersSeeTheLogInOrder` | dashboard/api/internal/ws/hub.go:48-111 | in every run each browser is sent entries of the stored log in log order, none twice, and its `done` is closed at most once |
| `LiveFeed.BroadcastReaches` | dashboard/api/internal/ws/hub.go:69-80 | a registered browser with room gets the event the hub broadcasts |
| `LiveFeed.PublishedIsSeen` | internal/events/events.go:81-108 | with a channel that loses nothing, the next entry published is what a waiting browser is sent next |
| `LiveFeed.StopStops` | dashboard/api/internal/ws/hub.go:48-58 | shutting down closes `done` of every registered browser, forgets them all, and touches nothing they have waiting |
| `LiveFeed.StoppedHubIsSilent` | dashboard/api/internal/ws/hub.go:48-62 | whatever happens after the hub has shut down, no browser is sent anything but what it had waiting |
| `LiveFeed.SlowBrowsersDoNotMatter` | dashboard/api/internal/ws/hub.go:64-80 | a browser is sent exactly what it would have been sent had the others never connected |

## Left out

- SHA-256, bcrypt, HMAC, UUID and session internals: a parameter, or values chosen from outside.
- PostgreSQL, Redis, HTTP and WebSocket mechanics: atomic store steps, one atomic script step, lossy channels that keep order.
- Calendar rendering of timestamps: an instant is hashed as decimal text, which is one-to-one as RFC 3339 text with nanoseconds is.
- Byte strings that are not UTF-8: texts are sequences of Unicode scalars, so the repair of invalid bytes by `encoding/json` does not arise.
- Numbers rewritten inside `jsonb` (docs/implementation-decisions.md:300-323): the store returns the literal it was given.
- Go integers and floats in payloads appear as the literal `encoding/json` prints for them; how it prints a float is not modelled.
- `handleAudit` reads payload numbers as floats; the handlers send strings and booleans only, and the model covers those.
- `AuditEntries.Sealed`: `Seal` assigns two fields in place; the model returns the changed value.
- `WriterTheorems.LogVerifiesUnlessForked`: an append still under way when the process dies takes effect before the next process reads the head, or not at all; a later commit, which would fork the log too, is not among the runs.
- `WriterLoop.Writer.Run`: calls of `Record` fall between two receives; finer interleaving, and callers that wait, are in the transition system.
- `RecordSync`'s own code is in the transition system only, not in the class.
- Preference of waiting writers in `sync.RWMutex`: the model's lock lets readers in at any time before `Close` holds it, which allows more runs.
- `RateLimit.SlidingWindowExact`: for clocks that do not go back and members that are distinct per key, as the limiter's callers provide; Redis expires keys by the same clock.
- `LoginLimiter.ParallelGuessesBounded`: for runs in which the address does not succeed, since a success forgets its failures.
- Address parsing, rendering and prefix containment: parameters of the attribution.
- `peerAddr`, `parsePrefix` and the parsing of query parameters.
- Detail texts, shortened hashes and the echoed range of a verification result: no effect on what is found.
- `Stats`, `series`, `topBlocked` and the text of `filterClause`: aggregation and query strings; SQL comparison of payload text without trimming is not compared with the in-memory match.
- The rule engine, the React dashboard, configuration, migrations and deployment.
