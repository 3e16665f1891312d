# NX-Nexus, modelled and proved

NX-Nexus turns a Switch into an MTP device whose install folders accept game containers. This project models its
streaming installer and the parts it stands on, and proves what they keep.

A container arrives in chunks of any size. The installer (`InstallSpec`, `Installer`) parses its PFS0 header
(`PartitionFs`), sorts its entries (`EntryNames`, `EntryTable`), streams each content into a placeholder, through a
decoder when it is compressed (`Ncz`, `NczDecode`, `NczDecoder`), commits it, and finally registers the title from its
manifest (`Cnmt`); anything that fails is rolled back (`Horizon`, `HorizonBackend`, `Services`). Containers can also be
made up on the fly (`NspBuilder`, `VirtualNsp`, `XciInstall`), for card images out of their secure partition
(`CardImage`, `CardInstall`). Around it stand the JSON reader of the source indexes (`Json*`), the handle table and the
upload handoff of the MTP responder (`ObjectDb`, `Upload`, `UploadRuns`, `UploadServer`) and the clean-up of title
names (`SanitiseName`).

Code that works by changing things is modelled as classes and loops over arrays, and each method is proved equal to a
function of the old state. The functions carry the theorems:

* `ChunkIndependence`, `CutDependence`: the outcome of an install does not depend on how the stream is cut, exactly
  when no entry of the sorted table lies behind the end of the one before it. `ContainerWitness` shows a header where
  it does, and `HorizonCuts` that the console's own backend never looks at the cuts.
* `InstallTrace`: the order of all backend calls over every run.
* `Delivery`, `Completion`, `ExtractInstall`, `FinishResult`: what has been committed is the stream's own bytes, a whole
  stream completes, extract-then-install is the identity, and a finished install has registered what it committed.
* `PfsFormat`, `CnmtFormat`, `NczFormat`, `JsonWriter`: writers of partition headers, manifests, section tables and
  documents, with every field in its place. The parsers give back what was written, and for headers, manifests and
  tables it is said exactly what they accept.
* `TitleInstall`, `FinishRecord`, `MetaContent`, `HeaderVerdict`: an install told in the bytes of files and manifest
  alone: which files are committed, kept for the import and registered, field by field, and which headers are refused.
  `FailureCause` says what every code of a failed install stands for.
* `ConsoleInstall`: the whole way from the container to the storage, the meta database and the records of the console,
  over `HonestRuns` and `HookInvariant`, which carry runs over from one backend to another. `AppRecords` says under
  which application a title is filed and what any run of installs leaves there.
* `NczRebuild`, `NczCipher`, `NszDelivery`, `NszCompletion`, `XczInstall`: for every decompressor that makes progress
  and every cutting, the decoder refines a byte-by-byte specification of what was made along the feeds, and a container
  or card image with compressed contents commits the files rebuilt along their pieces.
* `NczPacking`, `PackedTitle`: in the keys, nonces and sections of the writer, packing a file and installing it in any
  cuts restores it.
* `NczCuts`, `NczWitness`: what the cuts can change. The code accepts bytes behind the end of a frame as padding, but
  whether it meets them there depends on the cut; all cuts of a payload agree exactly when no byte follows a silent
  frame end inside a buffer, unless what follows comes to nothing. And its loop stops when the input is used up, so what
  the decompressor still holds back when the entry ends is lost: an entry of which no byte is dropped rebuilds in exactly
  the cuts that leave nothing held back. For both a decompressor and an entry are given that two cuts end differently.
* `NczIdeal`, `NszCuts`: next to each run goes one with an ideal decoder that cannot tell the cuts; wherever nothing is
  held back the two stand in the same state, so the cuts of a container with clean entries do not matter either.
* `FinishWitness`: an install that finishes well although a content it registers was never committed.
* `HorizonSafety`: a failed or aborted install leaves the console as it was, except for an application record that could
  not be read whole: what was not read is lost, and the exact conditions are proved.
* `JsonParse`, `JsonNav`, `JsonText`: the parser accepts exactly its grammar, the node links are sound, strings and
  numbers are read exactly. `NameText` says in code points what `SanitiseName` does to bytes.

Hooks are tables of functions over an opaque state, so the theorems hold for every backend and decoder that meets the
stated contract. The decompressor is any function that consumes a buffer in steps and makes progress; the block cipher
is any function of a key and a counter block. Any call into the console may fail at any point, and a call that fails
changes nothing; whether a byte of a placeholder can be written depends on the byte and on the other calls made before,
not on how many writes carried the bytes before it.

Three places where the code and its own comments disagree, each modelled as the code does it:

* `include/nexus/json.h` says `jsonGetString` always terminates its output. When it fails part-way the terminator
  written at the start has been overwritten; the model promises nothing about the buffer after a failure.
* `include/nexus/ncz.h` describes a section counter of 16 bytes inside an entry of 0x38 bytes. The code copies 16 bytes
  from offset 0x30 of the entry, past its end, but only ever uses the first eight; the model keeps those eight. A table
  written with full counters, in entries of 0x40 bytes, is misread: one section is accepted eight bytes short, and
  more are refused (`NczFormat.WholeCounterIsCutShort`, `NczFormat.WholeCountersAreRefused`).
* `src/format/json.c` calls its value parser iterative; it is recursive with a depth limit, and is modelled so.

`dafny verify dfyconfig.toml` checks everything.

## Model

| member | source | states |
|---|---|---|
| ChunkIndependence.ChunkBoundariesDoNotMatter | src/installer/installer.c:294-431 | Two cuts of one container stream end in the same installer and backend state, or both fail with the same code, when the backend does not look at the cuts, the decoder does not along this stream's own entries, and no entry lies behind the stream when it becomes current |
| CutDependence.HeaderDecides | src/installer/installer.c:378-381 | For any container whose tickets and certificates fit their buffers, and a backend and decoder that record all they are given: the outcome is independent of the cuts for every continuation of the header if and only if no entry of its sorted table, of whatever kind, lies behind the end of the one before it |
| ContainerWitness.OverlapCutsDecide | src/installer/installer.c:378-381 | A header of two overlapping contents, written out, and two cuts of one continuation after which the installer differs |
| InstallTrace.EveryRunIsInOrder | src/installer/installer.c:194-558 | Every run of feeds, finish and abort on any backend: one placeholder at a time, begin, writes, then commit or discard; a failure discards, rolls back once and makes no later call; register only after a manifest read, push only directly after a register |
| Delivery.EveryByteDelivered | src/installer/installer.c:294-431 | For disjoint entries and any cuts: every committed plain content holds exactly its slice of the stream and its declared size, tickets and certificates hold theirs, and the open placeholder holds what has arrived |
| Completion.WholeStreamInstalls | src/installer/installer.c:294-431 | With a willing backend a whole stream of disjoint plain entries reaches Complete with exactly the stream's contents committed |
| Completion.CompletesIff | src/installer/installer.c:303-404 | Completion happens exactly when the stream has passed the last entry's end, or reached it with that entry not empty: a zero-size last entry needs one more byte |
| ExtractInstall.ExtractThenInstall | src/installer/xci_install.c:338-422 | Builder, parser and installer compose to the identity: streaming a built header and its bodies, in any cuts, commits each content's id, size and bytes in order, and gathers ticket and certificate |
| TitleInstall.ExtractedTitleArrives | src/installer/xci_install.c:338-422 | Told from the files alone, in any cuts: what has been committed is, in order, the bytes of each file that is named 32 hexadecimal digits and .nca, under the id the digits spell; what is kept for the import is the bytes of the .tik files and of the .cert files; the meta content is the last .cnmt.nca with its size |
| TitleInstall.ExtractedTitleRegisters | src/installer/installer.c:502-552 | Whatever the hooks do, such an install that finishes well has imported the .tik bytes with the .cert bytes, has read a manifest, and has registered and pushed exactly the record whose every field is the one written in it; every content registered is among the files |
| TitleInstall.ExtractedTitleInstallsIff | src/installer/installer.c:502-552 | When every hook works, such a title installs if and only if its manifest has at most 63 contents, all of them among the files, and an extended header of at most 0x100 bytes, and a ticket comes with a certificate |
| ConsoleInstall.TitleLandsOnConsole | src/installer/install_horizon.c:69-345 | From the extracted container to the console, in any cuts, when every call works: the content storage gains each file's bytes under the id its name spells, the meta database the record the manifest spells under the title's key, the application's record the title in the place of an older version of it, and nothing else in the three changes |
| HeaderVerdict.HeaderRules | src/installer/installer.c:121-192 | In any cuts and whatever the hooks do: a stream that does not start as a container, a header above 0x4000 bytes or malformed, more than 64 useful entries, or no meta content fails the install with just the code for it as soon as the bytes show it; otherwise the install waits or goes on |
| FailureCause.FailureHasItsCause | src/installer/installer.c:194-431 | In any cuts and whatever hooks and decoder do, a stream that failed did so by its header or at an entry, with the code for it: a compressed one for want of a decoder, for what the decoder or its output met, or for the commit; another content for its last call, which was refused; a ticket or certificate for bytes beyond 0x1000 or 0x2000. One that did not fail has had no call refused, keeps within the buffers, and has counted every byte taken |
| FailureCause.FinishHasItsCause | src/installer/installer.c:502-552 | A finish that failed was not complete, had a ticket and no certificate, had its last call refused, or read what no manifest is or one that cannot be registered; the code says which |
| MetaContent.MetaIsLast | src/installer/installer.c:121-172 | In any cuts and whatever the hooks do, once the header is through the meta content is the last one the partition lists, compressed or not |
| FinishResult.FinishCalls | src/installer/installer.c:502-552 | A successful finish imported the gathered ticket and certificate bytes if there was a ticket, read the meta content, registered the record of exactly the manifest parsed from what was read (meta first, no delta fragments, all present, at most 64) and pushed that record last |
| FinishResult.FinishRegistersCommitted | src/installer/installer.c:439-552 | Over a whole run, in any cuts and on any backend: when a container without compressed entries is finished well, everything the registered record lists had been committed before |
| FinishRecord.FinishRegistersPackage | src/installer/installer.c:439-552 | A finish told from the bytes of the manifest that a writer of manifests laid out: it is refused for an extended header above 0x100 bytes, more than 63 contents or a missing one, each with its code, and otherwise the record registered and pushed has title id, version, type, extended header and, for each content that is not a delta, id, size, type, attributes and id offset as they were written |
| FinishRecord.FinishReadPackage | src/installer/installer.c:502-552 | A finish that works has read a manifest so written, and its calls and its record are just those |
| CnmtFormat.ParseInvertsEncode | src/format/cnmt.c:28-94 | Every field of a written manifest is parsed back, content by content |
| CnmtFormat.AcceptedIsWritten | src/format/cnmt.c:28-64 | A manifest is accepted if and only if it is one that the writer writes |
| NszDelivery.CompressedContentsAreRebuilt | src/installer/installer.c:225-431 | With the rebuilding decoder and any decompressor that makes progress, in any cuts and on any backend: once every entry of a container with disjoint entries has been streamed, what is committed is entry by entry the plain bytes or the file rebuilt along the pieces the entry arrived in, each of exactly its declared size; only entries that stop before their table and the magic behind it leave nothing |
| NszDelivery.CommittedIffLasting | src/installer/installer.c:225-242 | Under the same conditions a content id has been committed if and only if some entry of that id was plain or had its table and the magic behind it complete |
| NszDelivery.FinishRegistersRebuilt | src/installer/installer.c:483-497 | Over a whole run, in any cuts and on any backend: every id a finished install registers names an entry of the container, and it was committed exactly when one of its entries lasted; the installer checks for the entry, not for the commit |
| FinishWitness.FinishRegistersUncommitted | src/installer/installer.c:483-497 | A whole install, written out, that finishes well and registers a content id of which nothing has been committed: its only entry is a compressed one that stops inside its prelude |
| NszCuts.CompressedCutsDoNotMatter | src/installer/installer.c:294-431 | On a backend that does not look at the cuts, two cuts of one container with disjoint plain and compressed entries leave the same installer and backend state, but for the decoder's own state, or fail with the same code, even when the decompressor holds output back between the pieces: its output together with what it holds back must depend on the bytes alone, it must not look ahead, and each compressed entry must be clean as far as it has arrived, that is lose no byte behind a frame end and leave nothing held back |
| NczIdeal.IdealIsCutFree | src/installer/ncz_decode.c:262-298 | The decoder that hands on what the bytes mean as soon as they arrive cannot tell how they are cut |
| NczIdeal.SentIsDue | src/installer/ncz_decode.c:262-298 | Along any feeds of an entry that loses no byte, what a real decoder has sent is a prefix of what the ideal one has sent, and it fails only where the ideal one has failed |
| NszCompletion.WholeCompressedStreamInstalls | src/installer/installer.c:294-431 | With a willing backend a whole stream of disjoint entries, plain ones and compressed ones that rebuild along their pieces, reaches Complete with exactly the plain bytes and rebuilt files committed |
| NszCompletion.WholeCleanStreamInstalls | src/installer/installer.c:294-431 | When every compressed entry is clean and describes a file, the same holds in every cut, and what is committed is what the container describes: no cut comes into it |
| PackedTitle.PackedTitleInstalls | src/installer/installer.c:294-431 | The round trip of a compressed title: decrypt the sections of any of its files, pack them, put the container together and install it in any cuts, and what is committed is the files there were before |
| NczPacking.PackedFilesAreRestored | src/installer/ncz_decode.c:163-319 | The same for one file and the decoder alone: in every cut it ends well, having sent that very file |
| NczPacking.WrittenEntryRebuilds | src/installer/ncz_decode.c:163-319 | For any written sections, keys and nonces, any decompressor that makes progress and any cut: the decoder ends well if and only if what was made of the payload fills the sections, and then the sink has been sent the header and each section encrypted with the key and nonce written for it, types 3 and 4 only; a payload of less than 8 bytes ends well with nothing sent, a block list never does |
| NczPacking.RebuiltIsSealed | src/installer/ncz_decode.c:103-154 | A file is what the decoder rebuilds if and only if its first 0x4000 bytes are copied and each written section is the plain one in counter mode under its key, nonce and block index |
| NczPacking.SealingIsReversible | src/installer/ncz_decode.c:125-154 | Encrypting the sections and decrypting them are the same, and undo each other |
| NczPacking.PackedIsDescribed | src/installer/ncz_decode.c:163-319 | A packed entry is clean and describes the file it was packed from |
| NszDelivery.MetaSizeIsRebuilt | src/installer/installer.c:225-242 | In any cuts, a compressed meta content is registered with the size it was rebuilt to |
| NczRebuild.EveryCutRebuilds | src/installer/ncz_decode.c:163-319 | For any decompressor that makes progress and any cut of an entry, the decoder ends well if and only if what was made along those feeds has the described size or the entry stops inside its prelude; in the first case the sink got the copied header and each section encrypted, announced with the rebuilt size, in the second nothing; and at any moment before a failure it got the header and what has been made so far |
| NczCuts.CutsAgreeIffNothingFollows | src/installer/ncz_decode.c:273-298 | For a decompressor that does not look ahead and whose output, with what it holds back, depends on the bytes alone: all ways of cutting a payload come to the same if and only if inside no buffer a byte follows a frame that ends without output, unless what follows comes to nothing |
| NczCuts.CleanCutsRebuild | src/installer/ncz_decode.c:273-319 | A clean entry rebuilds in every cut to the file its bytes describe, or in none |
| NczCuts.RebuildsIffHandedOut | src/installer/ncz_decode.c:273-319 | An entry that describes a file and loses no byte rebuilds to it in exactly the cuts that leave nothing held back at its end |
| NczCuts.SealedIsClean | src/installer/ncz_decode.c:287-289 | A payload of whole frames none of which ends before the last byte is clean, whatever steps its decompressor takes |
| NczCuts.LoopsAgreeIff | src/installer/ncz_decode.c:217-230 | The loop over buffered bytes and the loop over fed bytes make the same of a buffer if and only if nothing is lost behind a silent frame end |
| NczWitness.CutsDecide | src/installer/ncz_decode.c:273-290 | A decompressor and an entry, written out, that is accepted in one cut and refused in another because a byte follows a silent frame end |
| NczWitness.HeldBackDecides | src/installer/ncz_decode.c:273-319 | A decompressor and an entry, written out, of which no byte is lost in any cut, refused in one cut and rebuilt in another because of what is held back when the entry ends |
| NczDecode.EmitRefines | src/installer/ncz_decode.c:125-154 | A run of decompressed bytes reaches the sink as the per-byte specification says, cut at section ends, never past the rebuilt size, and fails exactly when it would pass it |
| NczDecode.DrainRefines | src/installer/ncz_decode.c:273-294 | The same for a whole input buffer, whatever steps the decompressor takes |
| NczRebuild.FeedAdds | src/installer/ncz_decode.c:262-298 | One feed of a decoder that has been fed any pieces of an entry sends just what that feed adds to the closed form, and fails exactly when the closed form does |
| NczRebuild.ChunksAdd | src/installer/ncz_decode.c:262-298 | A run of feeds adds what the closed form of all of them adds, up to the first failure |
| NczCipher.ReadableIffAligned | src/installer/ncz_decode.c:111-115 | A rebuilt section carries the keystream a random-access reader of the file would use if and only if the section starts on a 16-byte boundary |
| NczCipher.RestartContinues | src/installer/ncz_decode.c:100-102 | Restarting the cipher at any later block continues the running keystream |
| NczCipher.RebuildingIsReversible | src/installer/ncz_decode.c:125-154 | Encrypting the rebuilt bytes again restores the decompressed ones |
| Ncz.ParseAcceptsTilings | src/format/ncz.c:31-94 | A table is accepted if and only if it holds 1 to 64 non-empty sections that tile the file from 0x4000 without gap, overlap, wrap or header cipher and no block list follows; its size is the one the preamble predicts |
| NczFormat.ParseInvertsWrite | src/format/ncz.c:31-94 | For every list of 1 to 64 sections that fills a file, and whatever follows: its written table is parsed back, section by section with type, key and nonce, unless a block list follows, which is refused |
| NczFormat.AcceptedIsWritten | src/format/ncz.c:31-94 | A table is accepted if and only if it is one that the writer writes and no block list follows |
| NczFormat.WholeCounterIsCutShort | src/format/ncz.c:57-68 | A table of one section whose counter is written in full, 16 bytes, is accepted eight bytes short, so that the payload seems to start inside the counter |
| NczFormat.WholeCountersAreRefused | src/format/ncz.c:57-80 | A table of more sections with full counters is refused, unless the second half of the first counter is by chance the offset of the second section |
| Ncz.PreamblePredictsSize | src/format/ncz.c:19-29 | The table's size is determined by its first 16 bytes |
| Ncz.LookupIsExact | src/format/ncz.c:96-105 | In an accepted table lookup succeeds exactly inside the described range and names the only section that covers the offset |
| Ncz.CounterSteps | src/format/ncz.c:118-132 | The counter built for offset o + 16k is the 128-bit big-endian counter for o stepped k times, and the block index never carries into the nonce |
| HorizonSafety.FailedInstallChangesNothing | src/installer/install_horizon.c:266-403 | With new content ids, and a new title version if registering it is reached, an install that fails while streaming or finishing, or is aborted at any point, leaves content storage, persisted meta database and every other application's record as they were, whichever calls fail short of the clean-up; the application's own record too when all of it had been read, and behind a finish that worked exactly then |
| HorizonSafety.CommitUndoableIffNew | src/installer/install_horizon.c:120-125 | A commit that works can be undone if and only if the content was not on the console before |
| HorizonSafety.RecommitLoses | src/installer/install_horizon.c:120-125 | A content already on the console, written out: it is committed again, and rolling back deletes it |
| HorizonSafety.RegisterUndoableIffNew | src/installer/install_horizon.c:212-235 | Registering a title version can be undone if and only if it was not registered before |
| HorizonSafety.ReregisterLoses | src/installer/install_horizon.c:212-235 | A title version already registered, written out: taking the second registration back removes it |
| HorizonSafety.PushUndoableIffFits | src/installer/install_horizon.c:282-284 | When the records can be read, a push can be taken back if and only if the attached list fits the 320 remembered entries |
| HorizonSafety.LongRecordLoses | src/installer/install_horizon.c:282-284 | The title itself and 320 other records, written out: the push works, and taking it back leaves only the first 320 |
| HorizonSafety.PushUndoableIffRead | src/installer/install_horizon.c:282-344 | A pushed record can be taken back if and only if the whole attached list had been read |
| HorizonSafety.PartReadLoses | src/horizon/ns_ext.c:111-117 | When listing fails and all else works, a push succeeds, loses every other entry of the application, and taking it back leaves no record |
| HorizonSafety.PushMerges | src/installer/install_horizon.c:282-344 | A push that works leaves what was read of the old list without the same content meta, plus the new entry, and that is the old list merged exactly when what was not read holds nothing else; one that does not work leaves the records as they were or puts back what was read, each exactly when stated |
| HorizonSafety.MergeKeepsOthers | src/installer/install_horizon.c:302-314 | The merge loses no other title and leaves exactly one entry for the installed one |
| HorizonSafety.PushThenRemove | src/horizon/ns_ext.c:126-177 | Removing the installed title from the merged record gives the old list without it if and only if the merged record can be read whole |
| AppRecords.FiledUnder | src/installer/install_horizon.c:56-63 | A title is filed under an application, a multiple of 0x2000, if and only if it is that id, its patch at 0x800 behind it, or an add-on content at 0x1000 to 0x1FFF behind it |
| AppRecords.PushAddsTitle | src/installer/install_horizon.c:266-345 | When every call works and there is room, pushing a title of an application puts its entry behind what is attached there without an older version of it; no other record changes |
| AppRecords.InstallsAddUp | src/installer/install_horizon.c:266-345 | Over any run of installs on a console without records: attached to each application are, in order, the last installed version of each of its titles and nothing else |
| AppRecords.BaseUpdateAndAddOn | src/installer/install_horizon.c:56-63 | An application, its update and an add-on installed so leave one record, which lists exactly these three |
| AppRecords.WithoutDropsTitle | src/horizon/ns_ext.c:137-143 | Compaction leaves the entries of every other title, in their order, and none of that title |
| HorizonSafety.CommitStoresWritten | src/installer/install_horizon.c:69-139 | Begin, writes that fill the declared size, and commit store exactly the written bytes under the id |
| HorizonSafety.RollbackRestoresAs | src/installer/install_horizon.c:347-403 | Rolling back restores all three stores from every state an install can be in, before or after registering and pushing |
| HorizonCuts.ConsoleIsCutFree | src/installer/install_horizon.c:98-113 | The console's write hook does not look at the cuts, whichever bytes cannot be written |
| HorizonCuts.ConsoleIgnoresCuts | src/installer/installer.c:294-431 | On the console any two cuts of a calm stream leave the same contents, meta database, records and installer, or fail for the same reason |
| Services.ReadsTheWhole | src/horizon/ns_ext.c:97-124 | For any page sizes the paginated read returns the whole list up to the cap |
| Services.ReadsAPrefix | src/horizon/ns_ext.c:97-124 | Wherever reading stops it returns a prefix of the list and changes nothing |
| Services.ReadIsWhole | src/horizon/ns_ext.c:97-124 | When listing never fails, reading returns the whole list if and only if it has at most 320 entries |
| Services.RemovalIsExact | src/horizon/ns_ext.c:126-177 | A removal that works leaves what it read without that content meta, no record when that is empty and the record as it was when nothing was dropped; that is the old list without it if and only if what was not read holds no other entry; a failed delete changes nothing, a failed push leaves no record |
| Services.WithoutIsExact | src/horizon/ns_ext.c:137-143 | Compaction drops exactly the entries of one title id and type and keeps every other with its multiplicity |
| JsonParse.AcceptsExactlyTheGrammar | src/format/json.c:173-257 | A document is accepted as a tree if and only if the tree reads the whole text, at most 32 levels deep and in at most 4095 nodes |
| JsonParse.ValueIsSound | src/format/json.c:173-226 | What the parser finds is a value of the grammar within the limits |
| JsonParse.ValueIsComplete | src/format/json.c:173-226 | Every value of the grammar within the limits is what the parser finds |
| JsonNav.ParsedIsGood | src/format/json.c:92-101 | In a parsed document every link leads forward and every span lies inside the text |
| JsonNav.ArrayItemsAreFound | src/format/json.c:298-305 | The i-th item of an array is found at its own nodes, nothing behind the last, and the count is the number of items |
| JsonNav.ObjectMembersAreFound | src/format/json.c:281-290 | Lookup finds the value of the first member with the key, or nothing when there is none |
| JsonNav.LookUpInParsed | src/format/json.c:281-305 | In a parsed document, lookup at the root finds exactly the first member of a key or the item at an index, and nothing when there is none |
| JsonWriter.ParseInvertsWriting | src/format/json.c:173-257 | Whatever blanks stand between its tokens, the written form of any value is accepted if and only if it is at most 32 levels deep and takes at most 4095 nodes, as a tree that says that value, string for string and number for number |
| JsonText.NumberIsRead | src/format/json.c:409-438 | The decimal digits of any number, with or without a plus sign, fraction or exponent, are read as that number |
| JsonWriter.CharactersOf | src/format/json.c:173-226 | A number may consist of digits, signs, a point and the letter E, large or small, and only space, tab and line ends may stand between tokens |
| JsonText.Utf8Examples | src/format/json.c:308-330 | The examples of RFC 3629, section 7, and the ends of each row of its table |
| JsonText.DecodingInvertsEscaping | src/format/json.c:348-407 | Any mix of raw text, short escapes, numeric escapes and surrogate pairs decodes to exactly the UTF-8 of its code points |
| JsonText.Utf8RoundTrip | src/format/json.c:308-330 | A code point is read back from its encoded bytes, whatever follows |
| ObjectDb.EveryRunKeepsHandles | src/storage/object_db.c:60-199 | Over every run without a clear handles are numbered in order and dead entries stay dead, so a handle is never given out again, though a rename changes its path; while no rename lands on a taken path, live handles and pairs correspond one to one |
| ObjectDb.RenameKeepsIffFree | src/storage/object_db.c:167-199 | A rename keeps that correspondence if and only if its destination is not taken by an entry that survives it |
| ObjectDb.RenameOntoAnotherClashes | src/storage/object_db.c:167-199 | Two files, written out, the first renamed to where the second is: both handles stay live with one path, and only the first can be found |
| ObjectDb.RenameIsExact | src/storage/object_db.c:167-199 | A renamed handle stays live under the new path, and every other entry is as before, but for those in the same store whose path is the renamed directory's, a slash and more, which die |
| ObjectDb.FindInvertsGet | src/storage/object_db.c:86-95 | A handle is found for a pair if and only if it is live and has that pair |
| ObjectDb.InternKeeps | src/storage/object_db.c:97-136 | Interning keeps the correspondence and every other entry, and afterwards the pair has exactly the returned handle, with the fields it was interned with |
| ObjectDb.InternIsIdempotent | src/storage/object_db.c:97-136 | Interning again returns the same handle and adds nothing |
| Upload.EveryUploadIsEnded | src/mtp/mtp_ops.c:1349-1368 | Every run of commands and session resets, whatever the stores answer, ends each write it begins once, on its own store and before another begins, if and only if every store that can begin a write can also take chunks and end it; a write is pending only in a session and committed only when no chunk failed and the announced size arrived |
| Upload.HalfAStoreLeaks | src/mtp/mtp_ops.c:752-756 | Any store that can begin a write but not take chunks or end one leaks: the same upload leaves its write open |
| UploadRuns.UploadArrives | src/mtp/mtp_ops.c:635-792 | In a session on a store whose operations work: a file announced and then sent, with its length known or not, is begun, handed over in full and ended; it is committed, answered with success and its handle kept if and only if it was not shorter than announced |
| UploadRuns.TransferArrives | src/mtp/mtp_server.c:226-284 | The bytes of a well-formed transfer are the bytes the store is handed, in order, whatever packets carry them |
| UploadRuns.FolderIsListed | src/mtp/mtp_ops.c:635-730 | A folder that was announced and made gets a handle as a directory, which its path finds; without a handle to give nothing changes |
| NspBuilder.ParseInvertsBuild | src/format/partition_fs.c:54-153 | Parsing a built header gives back the names and sizes in order with cumulative offsets, the data offset is the builder's header size, and the first 16 bytes predict it |
| PfsFormat.ParseInvertsWrite | src/format/partition_fs.c:54-153 | For PFS0 and HFS0 alike, any files, reserved bytes and padding, and whatever follows: a written header is parsed back, with the same names, offsets and sizes in order, and its first 16 bytes predict its size |
| PfsFormat.AcceptedIsListed | src/format/partition_fs.c:78-153 | A PFS0 or HFS0 header is accepted if and only if its bytes list entries, each with a name that ends inside the name table, and then it is these that are read from it |
| VirtualNsp.Read | src/storage/storage_titles.c:618-660 | A random-access read delivers exactly the slice of header and bodies for every offset and length, stopping at the end of the file, or reports the failing backing read |
| VirtualNsp.ReadRun | src/storage/storage_titles.c:625-657 | One run of the loop delivers the bytes at its position without crossing a region, and with available sources stops only at the end of the file |
| SanitiseName.SanitisedIsClean | src/format/format.c:83-129 | A sanitised name is whole UTF-8 sequences without a forbidden byte, fits with its terminator, and does not end in a space or dot |
| SanitiseName.SanitisingIsIdempotent | src/format/format.c:83-129 | Sanitising again changes nothing |
| SanitiseName.SmallerIsPrefix | src/format/format.c:83-129 | A smaller buffer gives a prefix of what a larger one gives |
| NameText.TextIsSanitised | src/format/format.c:83-129 | In code points: the forbidden ones go, as many of the others are kept as fit with the terminator, and of these the spaces and dots at the end are taken off |
| XciInstall.ImageInstallsItsContents | src/installer/xci_install.c:338-422 | Installing a card image of plain contents commits every picked content under its id with the bytes at its place in the image |
| XczInstall.CompressedImageInstalls | src/installer/xci_install.c:338-422 | Installing a card image of plain contents and compressed ones that rebuild along the pieces they are streamed in commits, in order, the image's bytes and the rebuilt files |
| XczInstall.FileArrivesInPieces | src/installer/xci_install.c:338-422 | What the chunks of the installing loop bring of a file is just the pieces that file is cut into |
| CardInstall.CardTitleArrives | src/installer/xci_install.c:338-422 | From the partition: what has been committed is, in order, each content entry of the secure partition under the id its name spells with the bytes of the image that start at the partition's data plus the entry's offset; no ticket is imported |
| CardInstall.InstallCard | src/installer/xci_install.c:312-441 | The whole run over a card image: when it succeeds, and whenever no read fails and nobody cancels, what the installer has been fed and finished is the container made of the secure partition that the image holds; nothing hindering, there is a result if and only if the image has such a partition with contents that fit a header; the result is success if and only if the install has not failed |
| CardImage.CardIsResolved | src/installer/xci_install.c:183-225 | The walk from the card header over the root partition table to the secure one finds, in an image so laid out, the secure partition's files and where their bytes start |
| ChunkIndependence.FeedTwiceAgrees | src/installer/installer.c:294-431 | Feeding two chunks agrees with feeding both at once |
| ChunkIndependence.EntryTwice | src/installer/installer.c:373-428 | The same for the bytes of one entry, across opening, routing and closing |
| CutDependence.CutsDoNotMatterIffCalm | src/installer/installer.c:378-381 | For such an installer between two entries the cuts of what follows are irrelevant if and only if no entry still to come ends before the stream has reached it |
| InstallTrace.RollbackIsLast | src/installer/installer.c:194-206 | No hook is called after a rollback |
| InstallTrace.PushFollowsRegister | src/installer/installer.c:537-548 | The call directly before a push registered the same record, and that worked |
| InstallTrace.FailInStep | src/installer/installer.c:194-206 | Failing discards the open placeholder, rolls back once and ends the order |
| InstallTrace.AbortEnds | src/installer/installer.c:554-558 | Aborting leaves exactly one rollback, as the last call of the whole run, and aborting again does nothing |
| InstallSpec.IterProgress | src/installer/installer.c:301-428 | Every round of the feed loop consumes bytes or moves to a later stage or entry, so every feed ends |
| EntryTable.SortIsStableSort | src/installer/installer.c:156-169 | The entry table is sorted by offset, stably, with the same members |
| EntryNames.HexRoundTrip | src/installer/installer.c:38-59 | Formatting a content id and parsing it back gives the id |
| EntryNames.ClassifiedByName | src/installer/installer.c:61-113 | For every name and every kind, in the bytes of the endings: a ticket if and only if it ends in .tik, a certificate in .cert, a content if and only if it ends in .nca or .ncz, meta with .cnmt before it, and starts with the 32 digits of its id up to the first dot; everything else is ignored |
| EntryNames.NamesClassify | src/installer/installer.c:69-113 | The two names the extractor gives a content, its id in digits with .nca or .cnmt.nca, classify as that content; ClassifiedByName says what every name is |
| EntryNames.ParseContentId | src/installer/installer.c:46-59 | The id is parsed exactly when the name starts with 32 hexadecimal digits |
| FinishResult.BuildMetaResult | src/installer/installer.c:439-500 | The record built from a parsed manifest, or the error that stopped it: the container's meta content first, then what the manifest lists; FinishRegistersPackage says which written field each one is |
| NszDelivery.CloseExact | src/installer/installer.c:391-425 | When an entry ends its placeholder joins the committed ones exactly as owed for the pieces it arrived in, and the next entry starts clean |
| NszDelivery.FeedTracks | src/installer/installer.c:225-242 | Whatever the cuts, while a compressed entry streams the placeholder holds exactly what the decoder has sent, and the decoder is the one fed exactly these pieces |
| NszDelivery.SinkSent | src/installer/installer.c:225-242 | Each piece the decoder sends opens the placeholder with the announced size if it is the first and otherwise goes behind what the placeholder holds |
| NczDecode.EnterIsOk | src/installer/ncz_decode.c:103-121 | Entering a section succeeds exactly below the rebuilt size and starts a fresh cipher only at the start of a section |
| NczDecode.CryptIsRebuilt | src/installer/ncz_decode.c:140-141 | Inside one section the running cipher is the specification's keystream |
| ByteXor.XorIsBitwise | src/installer/ncz_decode.c:125-154 | The exclusive or of two bytes is the bit-wise one |
| NczRebuild.OpenAndFeed | src/installer/ncz_decode.c:205-235 | Opening the table on what has been buffered and feeding the rest is the closed form of those two feeds |
| Ncz.NextStartsAtEnd | src/format/ncz.c:55-76 | Where one section ends the lookup finds the next, and it starts exactly there |
| Ncz.ParsePrefix | src/format/ncz.c:86-93 | Nothing behind the magic that follows the table changes the verdict on it |
| JsonDoc.ArrayGrows | src/format/json.c:92-101 | Attaching a parsed item gives the longer array's preorder nodes |
| JsonDoc.ObjectGrows | src/format/json.c:92-101 | Attaching a parsed member gives the longer object's preorder nodes |
| JsonLayout.AppendItem | src/format/json.c:92-101 | Appending to a sibling chain sets one link and adds the new nodes behind |
| HorizonSafety.CommitKeeps | src/installer/install_horizon.c:115-139 | Committing a new content keeps the install undoable |
| Upload.HandleInStep | src/mtp/mtp_ops.c:1349-1399 | One command keeps the order of write calls |
| VirtualNsp.DeliverIsSlice | src/storage/storage_titles.c:618-660 | What is delivered for one location is the file's slice there |
| VirtualNsp.FetchDelivers | src/storage/storage_titles.c:635-652 | A fetch inside a body delivers its bytes there, from the ticket and certificate in memory always, from a registered content unless reading it fails |
| XciInstall.StreamIsVirtualFile | src/installer/xci_install.c:387-422 | What is streamed is the built header followed by the image's slices at the recorded offsets |
| XciInstall.PickIsTaken | src/installer/xci_install.c:344-361 | What is picked, in partition order, is each entry with a content name that the builder takes, at the partition's data plus the entry's own offset, with its size and name |
| HonestRuns.HonestIsReal | src/installer/installer.c:194-558 | A run on a backend whose refusals are passed off as successes is the real backend's own run whenever nothing had to be passed off |
| HookInvariant.EveryRunKeeps | src/installer/installer.c:194-431 | What every content hook keeps holds after any feeds, as long as none has failed |
| PartitionFs.Init | src/format/partition_fs.c:78-126 | Parses a header; equals the parser's specification, error by error |
| PartitionFs.FindEntry | src/format/partition_fs.c:155-169 | Finds the first entry of a name, or none when there is none |
| NspBuilder.Builder.Add | src/format/nsp_builder.c:19-34 | Adds a file, or says exactly why not |
| NspBuilder.Builder.Finalize | src/format/nsp_builder.c:36-93 | Writes a header that describes the files in order and fixes their offsets, or says exactly why not |
| NspBuilder.Builder.Locate | src/format/nsp_builder.c:107-140 | Names what lives at an offset and how far it runs; its last error cannot happen for a finalised builder |
| Installer.InsertionSort | src/installer/installer.c:156-169 | The in-place sort leaves the stable sort of the array |
| Installer.NexusInstaller.BuildTable | src/installer/installer.c:121-172 | Filters and sorts the entry table as specified |
| Installer.NexusInstaller.RouteBytes | src/installer/installer.c:253-292 | Routes bytes as specified |
| Installer.NexusInstaller.VisitEntry | src/installer/installer.c:388-428 | One visit to the current entry, as specified |
| Installer.NexusInstaller.FeedChunk | src/installer/installer.c:294-431 | The feed loop over fields and buffers computes the specified state and verdict |
| Installer.NexusInstaller.BuildRecord | src/installer/installer.c:439-500 | Builds the record as specified |
| Installer.NexusInstaller.FinishInstall | src/installer/installer.c:502-552 | Finishes as specified |
| Ncz.ParseHeader | src/format/ncz.c:31-94 | The parsing loop computes the specified table or error; ParseInvertsWrite says what that table is for the bytes |
| Ncz.FindSection | src/format/ncz.c:96-105 | The search loop returns the first covering section |
| Ncz.BuildCounter | src/format/ncz.c:118-132 | The bytes written are the nonce and the big-endian block index |
| NczDecoder.NexusNczDecoder.EmitOut | src/installer/ncz_decode.c:125-154 | Encrypts in place and sends, cut at section ends, as specified; a refusing sink stops it |
| NczDecoder.NexusNczDecoder.DrainBuffer | src/installer/ncz_decode.c:273-290 | The decompression loop with its sink, as specified |
| NczDecoder.NexusNczDecoder.AbsorbPrelude | src/installer/ncz_decode.c:163-236 | Buffers, sizes and opens the table, as specified |
| NczDecoder.NexusNczDecoder.Feed | src/installer/ncz_decode.c:262-298 | The feed loop, as specified, including sinks that refuse; along any pieces, whatever the decompressor holds back, it has then been fed one more |
| NczDecoder.NexusNczDecoder.Begin | src/installer/ncz_decode.c:242-260 | Forgets the previous entry: whatever came before, the decoder has been fed nothing of the new one |
| NczDecoder.NexusNczDecoder.End | src/installer/ncz_decode.c:300-319 | After any feeds of an entry, whatever the decompressor holds back, succeeds if and only if what was made along them rebuilds or the entry stops inside its prelude; refuses further bytes when it does not |
| Services.System.ReadApplicationRecords | src/horizon/ns_ext.c:97-124 | The paginated loop fills the array with what the specification reads |
| Services.System.RemoveContentMetaFromRecord | src/horizon/ns_ext.c:126-177 | Removal with in-place compaction, as specified |
| HorizonBackend.Backend.Begin | src/installer/install_horizon.c:69-96 | Opens an empty placeholder of the declared size for the id; with an id new to the console the install stays undoable |
| HorizonBackend.Backend.Write | src/installer/install_horizon.c:98-113 | Appends the bytes to what the placeholder holds; the install stays undoable |
| HorizonBackend.Backend.Commit | src/installer/install_horizon.c:115-139 | Registers and remembers the content as specified |
| HorizonBackend.Backend.CommitMeta | src/installer/install_horizon.c:175-237 | Persists the record's header and contents under its key; with a key new to the console the install can be taken back with that record |
| HorizonBackend.Backend.Merge | src/installer/install_horizon.c:302-314 | The merge loop builds the union, or fails exactly when it would not fit |
| HorizonBackend.Backend.AddRecord | src/installer/install_horizon.c:266-345 | Pushes the merged record under the application of the title as specified; FiledUnder says which one that is |
| HorizonBackend.Backend.Undo | src/installer/install_horizon.c:347-403 | Rolls back in place: from every undoable state the three stores are as before the install |
| JsonDoc.Doc.Parse | src/format/json.c:228-257 | Parses a document: accepted exactly when the specification accepts, with the tree's preorder nodes; empty again on failure |
| JsonDoc.Doc.ParseNode | src/format/json.c:173-226 | Parses a value into the node array |
| JsonDoc.Doc.ParseArrayNode | src/format/json.c:147-171 | Parses an array into the node array |
| JsonDoc.Doc.ParseObjectNode | src/format/json.c:103-145 | Parses an object into the node array |
| JsonDoc.Doc.ScanQuoted | src/format/json.c:48-73 | Finds a string's span as specified |
| JsonDoc.Doc.Attach | src/format/json.c:92-101 | Patches the chain and the count |
| JsonNav.At | src/format/json.c:298-305 | Walks the chain; ends because links lead forward |
| JsonNav.ObjectGet | src/format/json.c:281-290 | Walks the keys; ends because links lead forward |
| JsonText.GetString | src/format/json.c:348-407 | Succeeds if and only if the string decodes and fits with its terminator, and then writes exactly that |
| JsonText.GetU64 | src/format/json.c:409-438 | Succeeds if and only if the number has an integer part below 2^64, and returns it |
| SanitiseName.Sanitise | src/format/format.c:83-129 | The copying and trimming loops write the specified name and its terminator |
| ObjectDb.Db.InternPath | src/storage/object_db.c:97-136 | Interns as specified, growing the table when it is full; the live count stays exact |
| ObjectDb.Db.Grow | src/storage/object_db.c:73-83 | Growth keeps every entry |
| ObjectDb.Db.Lookup | src/storage/object_db.c:86-95 | Returns the first live match |
| ObjectDb.Db.Kill | src/storage/object_db.c:157-165 | Invalidates as specified |
| ObjectDb.Db.RemoveStorage | src/storage/object_db.c:60-70 | Drops one store's entries |
| ObjectDb.Db.Repoint | src/storage/object_db.c:167-199 | Renames as specified |
| UploadServer.MtpServer.Reset | src/mtp/mtp_server.c:79-94 | Ends any open write and the session, from every state a run can reach |
| UploadServer.MtpServer.ReceiveStreamed | src/mtp/mtp_server.c:226-284 | The data-phase loop, as specified |
| UploadServer.MtpServer.BeginUpload | src/mtp/mtp_ops.c:635-730 | Leaves a write open exactly when it says so for a file, in step with the order of writes |
| UploadServer.MtpServer.TakeUpload | src/mtp/mtp_ops.c:745-792 | Leaves no write open whatever arrives, in step with the order of writes; the handle of an upload that failed is dead |
| UploadServer.MtpServer.HandleCommand | src/mtp/mtp_ops.c:1349-1399 | Keeps the order of writes; only an accepted announcement leaves one open |
| XciInstall.PickContents | src/installer/xci_install.c:344-361 | Picks the content entries that the builder takes, each with its place in the image: the partition's data plus its offset |
| CardInstall.InstallSecure | src/installer/xci_install.c:312-441 | Picks, builds and streams the secure partition, if a container can be built of its contents: a run that succeeds, and every run that nothing hinders, has fed and finished the container its taken entries make |
| CardImage.ReadPartitionHeader | src/installer/xci_install.c:141-181 | Reads a partition header in two steps: the one the image holds there, or nothing; never nothing when it holds one and reads work |
| CardImage.ResolveLayout | src/installer/xci_install.c:183-225 | Walks from card header to secure partition, over reads that may fail |
| CardImage.LocatePartition | src/format/xci.c:82-107 | Finds a partition by name behind the root header, every sum checked |
| XciInstall.StreamFile | src/installer/xci_install.c:393-421 | Streams one file in pieces; whatever stops it, the installer has been fed a prefix of them, and only a failed read, a cancel or a failed install does |
| XciInstall.RunInstall | src/installer/xci_install.c:381-441 | Feeds header and files, then finishes, or aborts when anything went wrong: success if and only if the install has not failed; with every read working and nobody cancelling it feeds everything and finishes |

## Left out

- Delivery.EveryByteDelivered: needs disjoint entries, because the installer does not reject overlapping ones; CutDependence.HeaderDecides gives the exact border for the cuts. The same holds for CompressedContentsAreRebuilt, CommittedIffLasting and the theorems about whole streams.
- NczCuts.CutsAgreeIffNothingFollows: the decompressor's output, together with what it holds back, depends on the bytes alone, nothing is held back between frames, and it does not look at bytes behind the end of a frame before it reports that end; one that does is outside the condition.
- NszCuts.CompressedCutsDoNotMatter: the same decompressors, and compressed entries that are clean as far as they have arrived; NczWitness.CutsDecide and NczWitness.HeldBackDecides show entries that are not. When a stream breaks off while output is held back, how much of it the open placeholder holds can depend on the cut.
- NszCompletion.WholeCleanStreamInstalls: the same conditions; NszCompletion.WholeCompressedStreamInstalls needs none of them.
- CutDependence.HeaderDecides: the tickets and the certificates fit their buffers with two bytes to spare, and no entry ends in the last three bytes of the 64-bit range. Behind a full buffer every cut fails for the same reason, so the other direction does not hold there.
- ChunkIndependence.ChunkBoundariesDoNotMatter: streams are shorter than 2^64 bytes; beyond that the position counter wraps.
- HorizonSafety.FailedInstallChangesNothing: needs the calls that clean up to work, the contents to be new, and the title version too when registering it is reached; the exact conditions are separate lemmas. Tickets, and placeholders that could not be deleted, are not part of the restored state. One finish per install: a second finish would remember the record it pushed itself.
- ObjectDb.Db.InternPath: handles are unbounded; 32-bit wrap-around would need terabytes of table.
- JsonNav.ObjectMembersAreFound: texts below 4 GiB, because offsets are stored in 32 bits.
- ConsoleInstall.TitleLandsOnConsole: the ticket service is not part of the console's state; that the ticket's bytes are imported is TitleInstall.ExtractedTitleRegisters.
- JsonWriter.ParseInvertsWriting: of a document that is too deep or too large it says only that it is not accepted as that value; JsonParse.AcceptsExactlyTheGrammar gives the other half.
- CardInstall.CardTitleArrives: contents that are not compressed; XczInstall.CompressedImageInstalls covers the others, told in the pieces they arrive in.
- Services.ReadsTheWhole: a page holds at least one entry while there is one left; a server that returned an empty page early would cut the list short.
- NczDecoder.NexusNczDecoder.Feed: the sink is handed the size the decoder reports at that moment together with the bytes, instead of asking for it through the size hook.
- Null arguments and null hooks are not modelled; attaching the decompressor is part of creating the installer.
- The installer's Idle stage, log lines and status texts, and of its progress counters all but the bytes written.
- Rights ids come from a parameter; ticket and MTP scalar readers are fixed-offset decoding. Of the card header what locates the partitions is modelled, not cart size, version and flags.
- zstd and AES internals; their contracts are parameters.
- USB, HTTP, sockets, files and the libnx services themselves; out-of-memory paths.
- MTP commands other than the upload handoff, including whether every command gets exactly one response; the datasets of SendObjectInfo arrive decoded.
- Server stop and restart: shutting the server down does not end a pending upload.
- Title listing, game card, saves, mods, album, raw NAND, network install, verification and firmware install.
- Which handle of an extracted title maps to which content file when a title is opened.
