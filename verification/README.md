# LocalCanvas, modelled

LocalCanvas is a gateway between a phone and a ComfyUI on the same desk: it submits generations, follows
them, cancels them, holds uploaded media for a while and binds what a user typed into a curator's workflow
graph. This project is a Dafny model of the parts of it that are hard to get right, and of the DEFLATE encoder
in its icon generator, with proofs of what they promise.

Code that changes things step by step is a method with loops, or a class whose methods update their fields,
proved against a specification function; the promises are lemmas about those functions.

**Icon generator.** `BitStrings`, `Deflate` (tables, tokens, greedy parse), `Encoder` (the bit sink, the chain
index and the loop as they run), `GreedySearch` (what its search finds, said of the bytes alone), `Inflate` (a
reference decoder written from section 3.2 of RFC 1951, which shares nothing with the encoder but numbers as
bits), `Huffman` (the canonical code, computed), `RoundTrip`, `Zlib`. The tables are also compared, row by row,
with bases and extra bits computed in `Inflate`, so an error shared by encoder and decoder would have to be an
error in the standard's arithmetic.

**Jobs.** `ComfyServer` is ComfyUI as the protocol sees it: each prompt pending, running, gone, filed with a
record, or deleted. `JobProtocol` is one job's refreshes and cancels as functions of the world, where any moves
of ComfyUI and any progress frames may happen before each HTTP call and each call may lose its request or its
answer. `JobStore` is the store with its mutable `Job` objects; its methods leave every job in the world the
protocol says. `JobTrace` cuts every action into single steps, so that `JobSafety` and `JobHonesty` can speak of
every moment of a run; `JobCancel` is about a single cancel, `JobEvents` about the event stream, `JobFrames` about
whose step count a progress frame is, and `JobStoreRuns` about every store that requests can reach.

**Requirement check.** `Versions` (PEP 440 keys and clauses), `Markers` (PEP 508 markers: grammar trees, a
parser, the evaluator over a shared position), `MarkerMeanings` (what single comparisons say), `InstalledTree`
(the walk over what is installed).

**Media.** `MediaItems` (ageing and eviction), `MediaProtocol` (uploads as interleaved steps of their threads),
`MediaUploads` (what each upload has sent), `MediaStore` (the locked sections as methods), `MediaSurvival` (what
the clock decides), `Ebml` (the header walk).

**Workflows.** `Workflows` (values, fields, the reader of the `inputs` block), `Sorting` and `Registry` (which
definitions load), `Spans` and `Translation`, `Submission` (validate, translate, bind).

## Where a promise does not hold

The model follows the code. In these places the code does not keep a promise made about it; each has a lemma
with a concrete input and one that says exactly when the promise holds.

- `docs/api.md:359-360` promises that a job is never shown as cancelled when its work completed. A prompt that
  leaves the queue for its end between cancel's queue read and its delete is reported cancelled for good
  (`JobHonesty.ACancelledJobThatCompletes`). For one cancel, `JobHonesty.CancelLiesExactlyWhenItsPromptSlipsPast`
  says when, by where the delete and the two answers after it find the prompt; for whole runs,
  `JobHonesty.CancelledIsTrueExactlyUnlessUnseen` does. One sighting in a queue by a refresh, of this action or any
  later one, or an entry in the history before a refresh asks the queue again, is enough
  (`JobHonesty.NoticedSlipsAreHonest`).
- `gateway/localcanvas_gateway/jobs.py:215-219` says that one observation retires the claim of a deletion. The look
  in the queue that a cancel itself takes does not, even when it sees the prompt running
  (`JobHonesty.ACancelThatLooksAndStillLies`); that of a refresh does (`JobHonesty.SightingRetiresTheClaim`).
- An upload that is answered with its id can already have been dropped: the clock is read before the lock is taken
  (`gateway/localcanvas_gateway/media.py:603-604`), so that of two uploads the one that read it first may commit last
  and go first (`MediaSurvival.ACommitThatEvictsItself`). `MediaSurvival.CommitSurvivesExactly` says when it stays, and
  it does whenever commits come in the order of their readings (`MediaSurvival.CommitsInTurnSurvive`).
- `gateway/localcanvas_gateway/media.py:656-657` says that a look-up's answer is true when it is asked for. It reaps
  and looks in two locked sections, and an item committed in between may have expired by then
  (`MediaSurvival.ALookUpThatAnswersAnExpiredItem`); `MediaSurvival.LookUpAnswersExpiredExactly` says when.
- `gateway/localcanvas_gateway/jobs.py:426-429` promises that a cancel never stops somebody else's generation.
  The interrupt names no prompt, so it does when the running slot changes hands after the queue was read
  (`JobCancel.AnInterruptThatStopsAnother`); `JobCancel.CancelSparesOthersExactly` says for a whole cancel when.
- PEP 440 says that `~=` is a range. The code compares only the release with the prefix, so a version of a later
  epoch passes (`Versions.CompatibleIgnoresLaterEpochs`); it decides as the range does exactly when the version is
  not such a one (`Versions.CompatibleIsTheRangeExactly`).
- PEP 440's wildcards compare the epoch too, the code's do not (`Versions.PrefixIgnoresEpochs`,
  `Versions.PrefixIsAsPrescribedExactly`).
- PEP 440's `<V` and `>V` leave out V's own pre-releases and post-releases. The code compares keys only, so they
  pass (`Versions.ExclusiveComparisonsTakeTheTargetsOwn`); `Versions.BelowIsAsPrescribedExactly` and
  `Versions.AboveIsAsPrescribedExactly` say which versions are decided otherwise.
- `gateway/localcanvas_gateway/comfy/events.py:98-102` says that the prompt last said to be executing is what
  unattributed step counts belong to. A frame about cached nodes clears it right after the start that set it, so
  such counts are dropped until a node is named (`JobFrames.CachedNodesForgetTheStart`); they are never given to
  another prompt (`JobFrames.CountsGoToTheirPrompt`).

## Model

| member | source | states |
|---|---|---|
| Encoder.Bits.constructor | app/tool/generate_launcher_icons.py:312-315 | a new sink holds no bits |
| Encoder.Bits.Value | app/tool/generate_launcher_icons.py:317-326 | appends the low `count` bits of a number, least significant first, whatever is already in the unfinished byte |
| Encoder.Bits.Code | app/tool/generate_launcher_icons.py:328-332 | appends a Huffman code most significant bit first, although every single bit goes in from the low end |
| Encoder.Bits.Finish | app/tool/generate_launcher_icons.py:334-339 | the bytes are exactly the bits written, in order, the last byte filled up with zeros |
| BitStrings.UnpackPack | app/tool/generate_launcher_icons.py:334-339 | reading finished bytes back gives the written bits and then only padding |
| RoundTrip.LengthTableIsStandard | app/tool/generate_launcher_icons.py:274-282 | each of the 29 length rows is the code, base and extra bits of section 3.2.5 of RFC 1951, computed independently |
| RoundTrip.DistanceTableIsStandard | app/tool/generate_launcher_icons.py:284-291 | each of the 30 distance rows is the code, base and extra bits of section 3.2.5 of RFC 1951, computed independently |
| Huffman.FixedCodeIsCanonical | app/tool/generate_launcher_icons.py:342-351 | the four ranges are the canonical code that section 3.2.2 of RFC 1951 assigns to the code lengths of section 3.2.6, for all 288 symbols |
| RoundTrip.FixedCodesArePrefixFree | app/tool/generate_launcher_icons.py:342-351 | no symbol's bits begin another symbol's bits |
| RoundTrip.SymbolRoundTrip | app/tool/generate_launcher_icons.py:342-351 | whatever follows, the decoder reads each symbol back and stops exactly behind it |
| RoundTrip.LengthRoundTrip | app/tool/generate_launcher_icons.py:354-358 | for every length from 3 to 258, code and extra bits decode to that length |
| RoundTrip.DistanceRoundTrip | app/tool/generate_launcher_icons.py:361-365 | for every distance from 1 to 32768, code and extra bits decode to that distance |
| Deflate.RowFor | app/tool/generate_launcher_icons.py:354-365 | scanning the table backwards finds the row whose base is the greatest one not above the value |
| Encoder.Remember | app/tool/generate_launcher_icons.py:418-423 | after every step each chain holds exactly the 32 newest earlier positions of its three bytes, newest first, positions inside a match included: the index agrees with a backwards scan of all the data |
| Encoder.ExtendMatch | app/tool/generate_launcher_icons.py:387-393 | the extension loop stops exactly at the first difference or at the limit |
| Encoder.SearchChain | app/tool/generate_launcher_icons.py:383-398 | leaving the loop early, past the window or at a match that fills the limit, loses nothing: the result is the best over all candidates |
| Encoder.LongestMatch | app/tool/generate_launcher_icons.py:379-398 | looking the chain up in the index gives the best match of a backwards scan, and none when fewer than three bytes are left |
| Deflate.MatchLength | app/tool/generate_launcher_icons.py:387-393 | the bytes agree up to the result and differ there, unless the result is the limit; source and target may overlap |
| Deflate.BestMatchIsLongestThenNearest | app/tool/generate_launcher_icons.py:379-414 | a match is emitted exactly when some candidate lies within 32768, and it is then the longest of those and the nearest among equals |
| Deflate.GreedyToken | app/tool/generate_launcher_icons.py:400-414 | the token emitted fits the remaining data and repeats it from the stated distance, or is the next byte |
| GreedySearch.TokenIsTheBestRecentCopy | app/tool/generate_launcher_icons.py:379-424 | wherever an earlier place holds the same three bytes, at most 32768 back and with fewer than 32 such places in between, a match is emitted that is at least as long as any repeat from there (up to 258 bytes), and no farther back than it when it is exactly as long |
| Encoder.WriteSymbol | app/tool/generate_launcher_icons.py:342-351 | appends the symbol's bits |
| Encoder.WriteMatch | app/tool/generate_launcher_icons.py:401-410 | appends length code, length bits, distance code and distance bits of one match |
| Encoder.WriteToken | app/tool/generate_launcher_icons.py:400-414 | writes the greedy token and steps over exactly what it stands for |
| Encoder.Compress | app/tool/generate_launcher_icons.py:368-428 | the encoder as it runs, with its index, its early exits and its bit sink, produces the bytes of the reference form: header, greedy parse, end of block, padding |
| RoundTrip.ReplayContinues | app/tool/generate_launcher_icons.py:387-393 | copying a repeat byte by byte rebuilds the data, also when the distance is shorter than the length |
| RoundTrip.ParseRoundTrip | app/tool/generate_launcher_icons.py:401-428 | the decoder reads back any sequence of tokens whose distances stay in reach and leaves what follows the block unread |
| RoundTrip.GreedyParsePlays | app/tool/generate_launcher_icons.py:375-424 | the greedy parse of every byte string stays in reach and plays back to that byte string |
| RoundTrip.DeflateRoundTrip | app/tool/generate_launcher_icons.py:368-428 | for every byte string, inflating the emitted bytes gives it back and leaves fewer than eight padding bits and whatever follows |
| RoundTrip.TokenIsCheap | app/tool/generate_launcher_icons.py:342-365 | a match never costs more bits than nine for each byte it stands for |
| RoundTrip.DeflatedSize | app/tool/generate_launcher_icons.py:368-428 | n bytes take at most (9n + 10) bits, rounded up to bytes |
| Zlib.Checksum | app/tool/generate_launcher_icons.py:431-438 | reducing both sums at every byte gives the checksum of section 8.2 of RFC 1950, whose sums are reduced once |
| Zlib.ModulusIsTheLargestPrime | app/tool/generate_launcher_icons.py:431-438 | the modulus is the largest prime below 65536, as section 9 of RFC 1950 has it |
| Zlib.LeadingZerosCount | app/tool/generate_launcher_icons.py:434-438 | the sums start at 1, so fewer than 65521 leading zeros always change the checksum |
| Zlib.ChecksumsOfShortTexts | app/tool/generate_launcher_icons.py:431-438 | the checksum of nothing is 1, that of "abc" is 0x024d0127 |
| Zlib.ZlibStream | app/tool/generate_launcher_icons.py:441-448 | header, block, big-endian checksum; a reader that checks all three gets the data back |
| Zlib.ZlibRoundTrip | app/tool/generate_launcher_icons.py:441-448 | for every byte string, reading the stream verifies header, block end and checksum and yields the data |
| ComfyServer.FirstRunning | gateway/localcanvas_gateway/comfy/fake.py:724-749 | the prompt an interrupt hits: the first running one, whoever asked |
| ComfyServer.ReadRecord | gateway/localcanvas_gateway/comfy/client.py:789-827 | by the record alone: interrupted with status error and an interrupt message, failed with status error and none, finished with a completed or successful status or with outputs and no status, and neither otherwise |
| ComfyServer.FirstError | gateway/localcanvas_gateway/comfy/client.py:841-865 | the error told is the first message that carries one, and nothing exactly when none does |
| ComfyServer.OutcomesExclude | gateway/localcanvas_gateway/comfy/client.py:789-827 | an entry is never two of finished, failed and interrupted, so the order they are looked at does not matter |
| ComfyServer.SettledForGood | gateway/localcanvas_gateway/comfy/fake.py:314-453 | no move leads a filed or deleted prompt anywhere else |
| JobProtocol.Position | gateway/localcanvas_gateway/comfy/events.py:228-239 | only a pair with 0 <= step <= total and a positive total is a progress |
| JobProtocol.AppliedHistoryIsItsOutcome | gateway/localcanvas_gateway/jobs.py:369-410 | what a job becomes by an entry is what the record says: its state, its results one by one, its failure in the words of the first error |
| JobStore.Job.ApplyHistory | gateway/localcanvas_gateway/jobs.py:369-412 | the object takes interrupted, failed, finished or still running from the entry, and clears what no longer holds |
| JobStore.Job.ApplyQueue | gateway/localcanvas_gateway/jobs.py:336-366 | a sighting in a queue retires the claim of a deletion; an absence is cancelled exactly under that claim |
| JobStore.Store.Create | gateway/localcanvas_gateway/jobs.py:261-282 | a new job is queued, published as version 1, and no other job changes |
| JobStore.Store.Publish | gateway/localcanvas_gateway/jobs.py:546-558 | the published view becomes the snapshot, with a new version exactly when it differs |
| JobStore.Store.NoteProgress | gateway/localcanvas_gateway/jobs.py:475-492 | a reported position reaches the job of that prompt alone, and none that is over |
| JobStore.Store.Refresh | gateway/localcanvas_gateway/jobs.py:310-367 | the object store leaves the job in the protocol's world after a refresh, and every other job where the moves in between left it |
| JobStore.Store.Snapshot | gateway/localcanvas_gateway/jobs.py:301-308 | a known job refreshed, an unknown one null |
| JobStore.Store.SendCommand | gateway/localcanvas_gateway/jobs.py:443-469 | delete for a waiting prompt, interrupt for a running one, nothing for neither; an answered delete becomes the claim, a lost answer does not |
| JobStore.Store.Cancel | gateway/localcanvas_gateway/jobs.py:416-471 | the object store does the protocol's cancel, call by call, with ComfyUI free to move before each call |
| JobStore.Store.Published | gateway/localcanvas_gateway/jobs.py:514-526 | last published version and view, or nothing for an unknown id |
| JobSafety.CreatedIsConsistent | gateway/localcanvas_gateway/jobs.py:261-282 | a new job starts in such a state |
| JobTrace.RunIsItsSteps | gateway/localcanvas_gateway/jobs.py:310-471 | every run is the sequence of its single steps: nothing but happenings touches a job that is over, a refresh asks the queue only right after the history had no entry, a cancel's own look sees where the prompt is and changes nothing, a claim follows the service of its delete |
| JobSafety.EveryRunIsSound | gateway/localcanvas_gateway/jobs.py:310-558 | at every moment of every run of refreshes, cancels, progress frames and ComfyUI moves, inside calls too: completed and failed have a record that by its own fields is that, with its outputs one by one or the words of its first error, terminal states are never left, progress is a real position and null once over, results only when completed, an error exactly when failed, the published view is the snapshot, and the version counts exactly the views published, each different from the one before |
| JobSafety.VersionCountsTheChanges | gateway/localcanvas_gateway/jobs.py:546-558 | at every moment the version has grown by the number of views published, the last of them is the current one and no two neighbours are equal |
| JobSafety.PublishedResultsAreTheOutputs | gateway/localcanvas_gateway/jobs.py:567-588 | a completed job's published results are ComfyUI's outputs, all of them in order, each indexed and addressed by its position |
| JobSafety.AnsweredRefreshTellsWhatItFinds | gateway/localcanvas_gateway/jobs.py:310-367 | an answered refresh of an unfinished job ends in the outcome of the record it finds, in queued or executing as the queue it finds its prompt in says, and otherwise keeps the job or, under a claimed deletion, cancels it |
| JobSafety.ANewJobIsQueued | gateway/localcanvas_gateway/jobs.py:261-282 | a new job is queued, with no progress, results or error, and is published as that |
| JobSafety.ReportedPositionIsShown | gateway/localcanvas_gateway/jobs.py:475-492 | a step count that is a position reaches exactly the unfinished job of its prompt, and its view; nothing else changes |
| JobSafety.PublishedViewShowsTheJob | gateway/localcanvas_gateway/jobs.py:223-233 | the view shows the job's own id, workflow, state, progress and error |
| JobStoreRuns.Handle | gateway/localcanvas_gateway/jobs.py:261-558 | one request of any kind on a store with any number of jobs: every job stays consistent and moves on as its watchers may rely on, the ones it is not about too |
| JobStoreRuns.Reach | gateway/localcanvas_gateway/jobs.py:241-558 | in every store reached from an empty one by any requests, every job's snapshot is backed by ComfyUI's record and published as it is |
| JobHonesty.SightingRetiresTheClaim | gateway/localcanvas_gateway/jobs.py:336-352 | one answered refresh that sees the prompt running retires the claim |
| JobHonesty.FoundIsFound | gateway/localcanvas_gateway/jobs.py:316-329 | once the history has had the entry, no later refresh of the run asks the queue |
| JobHonesty.CancelledIsTrueExactlyUnlessUnseen | gateway/localcanvas_gateway/jobs.py:310-471 | at every moment of a run that starts without a false claim, `cancelled` means an interrupted entry or a prompt deleted while pending, if and only if no prompt slips unseen: an answered delete found it picked up already, no refresh sighted it in a queue since, and one asks for it when it has left and is not filed as interrupted |
| JobHonesty.NoticedSlipsAreHonest | gateway/localcanvas_gateway/jobs.py:336-366 | `cancelled` is true at every moment of a run on which each prompt that slipped past a delete is sighted in a queue by one refresh of that action or a later one, or found in the history before a refresh asks the queue again, or never asked for again; a cancel's own look in the queue does not count |
| JobHonesty.ACancelThatLooksAndStillLies | gateway/localcanvas_gateway/jobs.py:448-471 | a run on which a standing false claim meets a second cancel: its own look is answered that the prompt is running, and it still ends in a false `cancelled` |
| JobHonesty.PlacesMoveOn | gateway/localcanvas_gateway/comfy/fake.py:314-453 | a filed or deleted prompt stays so, one that was picked up never waits again, and one that left the queue does not come back |
| JobHonesty.CancelLiesExactlyWhenItsPromptSlipsPast | gateway/localcanvas_gateway/jobs.py:416-471 | one cancel reports a false `cancelled` if and only if the queue's answer had the prompt waiting, the answered delete found it running or gone, the last history answer had no entry and the last queue answer came when it was gone or filed as anything but interrupted |
| JobHonesty.ACancelledJobThatCompletes | gateway/localcanvas_gateway/jobs.py:443-471 | a run on which a prompt slips from the queue to its end between the queue read and the delete: the job is reported cancelled for good and its generation finishes |
| JobCancel.QuietCancelReportsWhatHappened | gateway/localcanvas_gateway/jobs.py:416-471 | with nothing racing it, a cancel reports for each place of the prompt what really became of it; it sends nothing for a prompt in neither queue, and of several running prompts it stops the first |
| JobCancel.DeleteSparesOthers | gateway/localcanvas_gateway/comfy/client.py:555-565 | deleting from the queue never touches another prompt |
| JobCancel.InterruptSparesOthersExactly | gateway/localcanvas_gateway/comfy/fake.py:724-749 | serving an interrupt spares every other prompt if and only if it has no effect yet, or the first running prompt is this job's or there is none |
| JobCancel.CancelSparesOthersExactly | gateway/localcanvas_gateway/jobs.py:416-471 | of all the steps of a cancel none moves another job's prompt, if and only if not: its refresh left the job going, the queue answered that the prompt is running, the interrupt was delivered with an effect, and by then another prompt was the first one running |
| JobCancel.AnInterruptThatStopsAnother | gateway/localcanvas_gateway/jobs.py:426-429 | a run on which the slot changes hands between the queue read and the interrupt, and another prompt is stopped |
| JobFrames.Listener.Handle | gateway/localcanvas_gateway/comfy/events.py:184-239 | each frame updates the belief and leads to the store calls stated |
| JobFrames.Listener.Listen | gateway/localcanvas_gateway/comfy/events.py:146-180 | a whole connection, frame after frame; the belief ends with the connection |
| JobFrames.BeliefIsTrue | gateway/localcanvas_gateway/comfy/events.py:98-102 | joined at any moment, the listener believes in nothing or in the prompt that is running |
| JobFrames.BeliefIsWhatWasAnnounced | gateway/localcanvas_gateway/comfy/events.py:206-226 | while a prompt runs, the listener believes in it exactly when a start or a node of it has been announced and neither cached nodes nor its end since |
| JobFrames.CountsGoToTheirPrompt | gateway/localcanvas_gateway/comfy/events.py:228-239 | a step count is noted for the prompt that is running, or dropped; dropped exactly when it is no position, or names no prompt while nothing announced stands |
| JobFrames.ChangesAreNoted | gateway/localcanvas_gateway/comfy/events.py:206-226 | the store is told to look again exactly by a start, cached nodes, an end, or a prompt that has run out of nodes, each under its own prompt |
| JobFrames.CachedNodesForgetTheStart | gateway/localcanvas_gateway/comfy/events.py:216-226 | cached nodes clear the belief a start has just set, so counts in between are dropped |
| JobEvents.BatchRebuilds | gateway/localcanvas_gateway/api/events.py:155-187 | one batch of messages turns a client that shows the last sent view into one that shows the current view |
| JobEvents.OnlyChangesAreSent | gateway/localcanvas_gateway/api/events.py:155-187 | a message is sent exactly when its part of the snapshot is there and differs from what was sent before; an unchanged snapshot sends nothing |
| JobEvents.PicksAreSuccessive | gateway/localcanvas_gateway/api/events.py:87-122 | whichever of all the views published along a run the watcher picks up in order, those in the middle of a call included, they evolve as batches need |
| JobEvents.StreamRebuildsTheSnapshot | gateway/localcanvas_gateway/api/events.py:87-187 | from an empty client, the whole stream over any picked views rebuilds state, progress, results and error message of the last one |
| JobEvents.PayloadPrecedesTheState | gateway/localcanvas_gateway/api/events.py:155-187 | the state is the last message of its batch and everything it commits to has arrived by then |
| JobEvents.NothingFollowsATerminalState | gateway/localcanvas_gateway/api/events.py:155-187 | after a terminal view nothing more is sent |
| JobEvents.Watch | gateway/localcanvas_gateway/api/events.py:87-122 | the loop sends exactly the stream of the views it picks up |
| JobEvents.PicksUntilOver | gateway/localcanvas_gateway/api/events.py:96-112 | it skips no turn, sends nothing after a terminal state, and ends only at one or when the client has gone |
| Versions.Strip | scripts/lib/gateway_health.py:219-221 | trailing zeros go, one zero stays |
| Versions.KeyOrderIsTotal | scripts/lib/gateway_health.py:212-234 | any two keys compare one way, and equal exactly when they are the same key |
| Versions.KeyOrderIsTransitive | scripts/lib/gateway_health.py:212-234 | the order of keys is transitive |
| Versions.ReleasesCompareAsPadded | scripts/lib/gateway_health.py:218-221 | stripped releases compare as if padded with zeros to equal length |
| Versions.KeysOrderAsPrescribed | scripts/lib/gateway_health.py:212-234 | keys compare as PEP 440 orders versions: epoch, padded release, then dev, pre, final and post, and their numbers |
| Versions.CompatibleIsAtLeastAndPrefix | scripts/lib/gateway_health.py:258-267 | `~=X.Y` accepts exactly what `>=X.Y` together with the wildcard on its prefix accepts |
| Versions.FirstClauseThatFailsSettles | scripts/lib/gateway_health.py:242-274 | several clauses hold exactly when each does, and otherwise the first that fails or cannot be decided gives the answer |
| Versions.CompatibleIsARange | scripts/lib/gateway_health.py:258-267 | within one epoch, `~=` is a half-open range of padded releases |
| Versions.CompatibleIsTheRangeExactly | scripts/lib/gateway_health.py:258-267 | `~=` decides as PEP 440's range does if and only if the version is not one of a later epoch that shows the prefix |
| Versions.CompatibleIgnoresLaterEpochs | scripts/lib/gateway_health.py:258-267 | a version of a later epoch that `~=` accepts and that lies outside the range |
| Versions.BelowIsAsPrescribedExactly | scripts/lib/gateway_health.py:268-272 | `<V` decides as PEP 440's exclusive comparison if and only if the version is not a pre-release with V's epoch and numbers, below a V that is none |
| Versions.AboveIsAsPrescribedExactly | scripts/lib/gateway_health.py:268-272 | `>V` decides as PEP 440's exclusive comparison if and only if the version is not a post-release with V's epoch and numbers, above a V that is none |
| Versions.ExclusiveComparisonsTakeTheTargetsOwn | scripts/lib/gateway_health.py:268-272 | 3.0a1 passes `<3.0` and 1.7.post1 passes `>1.7` |
| Versions.PrefixIsAsPrescribedExactly | scripts/lib/gateway_health.py:250-256 | `==V.*` and `!=V.*` decide as PEP 440's prefix matching if and only if the version has epoch 0 or does not show the prefix |
| Versions.PrefixIgnoresEpochs | scripts/lib/gateway_health.py:250-256 | 1!2.5 passes `==2.*` and fails `!=2.*` |
| Markers.MarkerIsItsTree | scripts/lib/gateway_health.py:402-454 | the parser accepts a token list as a tree exactly when the tree is well formed and spells the whole list; `and` binds tighter than `or` |
| Markers.Evaluator.Either | scripts/lib/gateway_health.py:444-449 | the method over the shared position is the `or` level: all operands are read, none is skipped |
| Markers.Evaluator.Both | scripts/lib/gateway_health.py:437-442 | the method over the shared position is the `and` level |
| Markers.Evaluator.Atom | scripts/lib/gateway_health.py:413-435 | a parenthesis must close, a comparison needs its operator |
| Markers.Evaluate | scripts/lib/gateway_health.py:402-454 | on every token list it ends, and answers a boolean exactly when the whole list spells one tree all of whose comparisons are decidable, with that tree's value |
| Markers.ValueOfTheTree | scripts/lib/gateway_health.py:402-454 | the value is the tree's, whichever way it is written down |
| Markers.EitherDecidable | scripts/lib/gateway_health.py:367-399 | whether a marker can be decided does not depend on which extra is asked |
| Markers.MarkerApplies | scripts/lib/gateway_health.py:457-469 | `None` for an unreadable or undecidable marker, otherwise true exactly when it is empty or holds with no extra or with one of those asked for |
| Markers.MoreExtrasApplyMore | scripts/lib/gateway_health.py:457-469 | asking more extras never makes a marker stop applying or stop being decidable |
| MarkerMeanings.ExtraIsAskedFor | scripts/lib/gateway_health.py:367-371 | `extra == "x"` applies exactly when one of the extras asked for, or none, has x's canonical name; `extra != "x"` exactly when one of them has another |
| MarkerMeanings.SwappedExtraIsAskedFor | scripts/lib/gateway_health.py:402-435 | the same with the text on the left |
| MarkerMeanings.AliasStandsFor | scripts/lib/gateway_health.py:318-323 | each legacy name stands for the variable with its own letters, dots for underscores, or the old name of the implementation |
| MarkerMeanings.TextsCompared | scripts/lib/gateway_health.py:372-377 | `in`, `not in` and `===` compare a variable and a literal as text, in either order; a literal with a wildcard on the left is undecidable |
| MarkerMeanings.WithinIsASlice | scripts/lib/gateway_health.py:372-375 | `in` holds exactly when the one text stands somewhere in the other |
| MarkerMeanings.OrderedIsPrescribed | scripts/lib/gateway_health.py:268-272 | each of the six ordering operators decides by the sign of the order PEP 440 prescribes |
| MarkerMeanings.VersionsCompared | scripts/lib/gateway_health.py:389-393 | between a variable and a literal that are versions, each ordering operator decides by PEP 440's order, in either order of the operands |
| MarkerMeanings.CompatibleCompared | scripts/lib/gateway_health.py:389-393 | `~=` between versions of one epoch decides as PEP 440's range, and is not turned round |
| MarkerMeanings.WildcardsCompared | scripts/lib/gateway_health.py:378-388 | `==` and `!=` with a wildcard on the right test the prefix |
| MarkerMeanings.OtherValuesCompared | scripts/lib/gateway_health.py:394-399 | what is not two versions is compared as text by `==` and `!=` and is undecidable by an order |
| MarkerMeanings.AndBindsTighter | scripts/lib/gateway_health.py:437-449 | `and` binds tighter than `or` on either side, and parentheses group, for all operands that are decided |
| MarkerMeanings.OrIsSome | scripts/lib/gateway_health.py:444-449 | `or` is decided exactly when all its parts are, and then true exactly when one of them is |
| MarkerMeanings.AndIsAll | scripts/lib/gateway_health.py:437-442 | `and` is decided exactly when all its parts are, and then true exactly when all of them are |
| InstalledTree.CheckItem | scripts/lib/gateway_health.py:488-517 | one requirement: no problem exactly when it is readable, decidable, and does not apply or is installed in a wanted version; otherwise exactly the problem it has |
| InstalledTree.VisitOne | scripts/lib/gateway_health.py:487-521 | one distribution's requirements: a real problem, or everything it leads to seen and everything new queued |
| InstalledTree.UnsatisfiedRequirement | scripts/lib/gateway_health.py:476-522 | on every finite environment, cyclic or not, it ends and finds nothing exactly when every requirement in the least set closed under applicable requirements and asked extras is met; what it finds is the first problem of a distribution in that set |
| InstalledTree.UniverseIsClosed | scripts/lib/gateway_health.py:476-522 | the finite set of everything any distribution names is closed, so a least closed set exists and the walk is bounded |
| InstalledTree.SeenIsTheLeastSet | scripts/lib/gateway_health.py:483-522 | when the queue is empty, `seen` is that least closed set |
| InstalledTree.MoreExtrasRequireMore | scripts/lib/gateway_health.py:476-522 | asking more extras of the gateway only adds requirements |
| InstalledTree.HealthyWithFewerExtras | scripts/lib/gateway_health.py:476-522 | an environment healthy with more extras is healthy with fewer |
| MediaItems.OldestFirstIsSorted | gateway/localcanvas_gateway/media.py:702-703 | eviction looks at the items by age |
| MediaItems.OldestFirstKeepsItems | gateway/localcanvas_gateway/media.py:702-703 | it looks at each of them once |
| MediaItems.OldestFirstIsStable | gateway/localcanvas_gateway/media.py:702-703 | items of the same age keep the order they were reserved in |
| MediaItems.EvictionIsTheShortestPrefix | gateway/localcanvas_gateway/media.py:693-711 | eviction drops the shortest oldest-first run of settled items that brings the total to the ceiling, and no reservation |
| MediaItems.SurvivesByItsPlace | gateway/localcanvas_gateway/media.py:693-711 | the item at a place of the order of eviction survives if and only if it and all that follow it fit the ceiling together |
| MediaItems.SurvivesExactly | gateway/localcanvas_gateway/media.py:693-711 | a settled item survives if and only if it fits together with all younger ones and those of its age reserved later |
| MediaItems.NewestSurvives | gateway/localcanvas_gateway/media.py:693-711 | the strictly newest item stays whenever it fits the ceiling alone |
| MediaProtocol.ReserveKeepsInvariant | gateway/localcanvas_gateway/media.py:622-649 | a claimed id and path are new among items and files |
| MediaUploads.ReservationTakesTheFirstFree | gateway/localcanvas_gateway/media.py:622-649 | the first of 64 draws that is neither an item nor a file becomes an empty reservation with a life that starts now; with none free nothing changes |
| MediaProtocol.SurvivorsAreFresh | gateway/localcanvas_gateway/media.py:677-691 | what reaping leaves is exactly the reservations and the unexpired items |
| MediaProtocol.CommitKeepsInvariant | gateway/localcanvas_gateway/media.py:603-612 | a commit with its eviction ends within the ceiling and orphans no file |
| MediaProtocol.DiscardKeepsMatching | gateway/localcanvas_gateway/media.py:713-720 | discarding settled items keeps ids distinct, every reservation with its upload and every file with its item, and forgets exactly those ids |
| MediaProtocol.EveryInterleavingKeepsInvariant | gateway/localcanvas_gateway/media.py:524-720 | under any interleaving of reserve, open, write, abort, commit and reap: ids and places are distinct, every upload has its own unsettled reservation, every file belongs to an item, and settled bytes stay within the ceiling |
| MediaProtocol.CommitFindsItsReservation | gateway/localcanvas_gateway/media.py:598-605 | from an empty store, the lookup of an upload in progress can never miss |
| MediaUploads.EveryUploadIsTold | gateway/localcanvas_gateway/media.py:571-612 | in every interleaving, each upload stands where its own steps since its reservation have brought it: writing or waiting to commit with exactly the bytes of its chunks counted, each within the limit it was written under, or refused by the first that was not |
| MediaUploads.RefusedExactlyAboveTheLimit | gateway/localcanvas_gateway/media.py:583-594 | with one limit for the upload, it is refused exactly by the first chunk that brings its bytes above the limit |
| MediaUploads.EveryItemIsWhatWasSent | gateway/localcanvas_gateway/media.py:602-611 | in every interleaving, each item stored was committed by its own upload: its bytes are those of the chunks sent since the reservation, its kind, name and type those of the commit, its life the reading of the clock and the time to live |
| MediaSurvival.CommitSurvivesExactly | gateway/localcanvas_gateway/media.py:603-612 | what a commit stores survives the commit's own eviction if and only if it fits together with all that would go after it |
| MediaSurvival.ACommitThatEvictsItself | gateway/localcanvas_gateway/media.py:603-612 | a run with an increasing clock on which an item that fits the ceiling alone is dropped by the commit that stores it |
| MediaSurvival.CommitsInTurnSurvive | gateway/localcanvas_gateway/media.py:603-612 | on every run with an increasing clock and commits in the order of their readings, each item that fits the ceiling alone is there after its commit |
| MediaSurvival.LookUpAnswersExpiredExactly | gateway/localcanvas_gateway/media.py:653-664 | with anything between its two locked sections, a look-up answers a settled item that had expired when it reaped if and only if the item's commit fell in between with a reading that old |
| MediaSurvival.ALookUpThatAnswersAnExpiredItem | gateway/localcanvas_gateway/media.py:653-664 | a store in which an upload that read the clock at 10 waits for the lock while a look-up reaps at 16: its commit then leaves an item that expired at 15 to be found |
| MediaStore.Store.ReapExpired | gateway/localcanvas_gateway/media.py:677-691 | exactly the settled items whose time has come go, and their number is answered |
| MediaStore.Store.Evict | gateway/localcanvas_gateway/media.py:693-711 | the loop with its running total drops what the specification drops |
| MediaStore.Store.Claim | gateway/localcanvas_gateway/media.py:622-649 | the first of at most 64 drawn ids that is free is claimed, or none |
| MediaStore.Store.Commit | gateway/localcanvas_gateway/media.py:603-612 | the reservation becomes an item with a life that starts now, and the store makes room |
| MediaStore.Store.Get | gateway/localcanvas_gateway/media.py:653-664 | with nothing between its two sections, it answers a settled item that has not expired, the reservation of an upload in progress, or nothing |
| Ebml.EbmlNumber | gateway/localcanvas_gateway/media.py:1065-1094 | the loop reads the number the definition gives, and refuses at the same places |
| Ebml.EbmlVideoType | gateway/localcanvas_gateway/media.py:1029-1062 | the loop answers what the walk of the first 64 bytes answers, and ends on every input |
| Ebml.SizeRoundTrip | gateway/localcanvas_gateway/media.py:1065-1094 | every size written in any of its widths of 1 to 8 bytes is read back (section 4 of RFC 8794) |
| Ebml.IdsAndDocTypes | gateway/localcanvas_gateway/media.py:297-311 | the ids are those of RFC 8794, and exactly the payloads that spell webm and matroska are known |
| Ebml.WalkStep | gateway/localcanvas_gateway/media.py:1044-1062 | one element is passed over, answered, or cut off by the window |
| Ebml.HeaderIsIdentifiedByItsFirstDocType | gateway/localcanvas_gateway/media.py:1029-1062 | for every well-formed header and whatever follows it, the answer is the table entry of the first DocType when that element ends within 64 bytes and nothing otherwise |
| Ebml.Peeked | gateway/localcanvas_gateway/media.py:850-869 | nothing is lost or reordered by the peek, and it takes the fewest leading chunks that hold enough, the rest unread |
| Sorting.SortForgetsOrder | gateway/localcanvas_gateway/workflows/registry.py:175-176 | sorting by a key that tells elements apart does not depend on the order they came in |
| Sorting.AtMostByFirstDifference | gateway/localcanvas_gateway/workflows/registry.py:175-176 | one text comes before another when it is its beginning or has the smaller character where they first differ |
| Registry.GroupByClaim | gateway/localcanvas_gateway/workflows/registry.py:139-142 | each claimed id with all its claimants, broken ones included |
| Registry.Resolve | gateway/localcanvas_gateway/workflows/registry.py:126-177 | the loops over files, ids and claimants list what each file adds on its own, sorted |
| Registry.LoadsExactlyWhenSoleClaimant | gateway/localcanvas_gateway/workflows/registry.py:134-173 | a definition loads exactly when it is valid and no other file claims its id |
| Registry.IdsStrictlyIncrease | gateway/localcanvas_gateway/workflows/registry.py:169-175 | listed ids strictly increase in code point order |
| Registry.DiagnosticsAreInOrder | gateway/localcanvas_gateway/workflows/diagnostics.py:34-47 | diagnostics are listed by workflow id, then file, then field, then message |
| Registry.ReportNamesTheOthers | gateway/localcanvas_gateway/workflows/registry.py:150-165 | the report of a duplicate goes to its own file and names exactly the other files that claim the id, sorted |
| Registry.OrderOfDiscoveryIsIrrelevant | gateway/localcanvas_gateway/workflows/registry.py:126-177 | for every permutation of the files found, the same workflows and the same diagnostics in the same order |
| Registry.NothingVanishes | gateway/localcanvas_gateway/workflows/registry.py:126-177 | each file's definition loads or a diagnostic names the file |
| Workflows.Parser.ParseTarget | gateway/localcanvas_gateway/workflows/definition.py:981-1036 | no new problem is reported exactly when the entry names a literal input that exists |
| Workflows.TargetsAreNodeAndInput | gateway/localcanvas_gateway/workflows/definition.py:981-1036 | an entry names a target exactly when it has the keys node and input and no other, each readable, and the target can be bound |
| Workflows.NodesAreNamed | gateway/localcanvas_gateway/workflows/definition.py:1000-1016 | an integer names the node of its decimal digits, a text that is not blank names itself, and nothing else names a node |
| Workflows.DrivenInputsHoldPlainValues | gateway/localcanvas_gateway/workflows/definition.py:1090-1117 | every target of an accepted definition is an input of its graph that holds a plain value, never a list or an object |
| Workflows.Parser.ParseBind | gateway/localcanvas_gateway/workflows/definition.py:911-979 | no new problem is reported exactly when the block names at least one target and none twice |
| Workflows.Parser.ParseInputs | gateway/localcanvas_gateway/workflows/definition.py:458-505 | no new problem is reported exactly when every field is sound and bound, no id is used twice and no target is shared within or between fields; what is returned is then well bound |
| Spans.SplitSpans | gateway/localcanvas_gateway/translation/spans.py:52-90 | the scanning loop yields the split the definition gives |
| Spans.SplitIsAPartition | gateway/localcanvas_gateway/translation/spans.py:52-90 | the spans concatenate to the text |
| Spans.SplitAlternates | gateway/localcanvas_gateway/translation/spans.py:52-90 | protected spans are whole literals, and unprotected ones hold no quote that opens one |
| Spans.ScanEndsAtTheFirstBareQuote | gateway/localcanvas_gateway/translation/spans.py:91-108 | a literal ends after the first quote with an even number of backslashes before it, and runs to the end of the text when there is none |
| Spans.SplitIsUnique | gateway/localcanvas_gateway/translation/spans.py:52-90 | it is the only such division of the text |
| Translation.TrimmedIsTight | gateway/localcanvas_gateway/translation/service.py:391-404 | trimming takes all whitespace at both ends and nothing else |
| Translation.SpacesAre | gateway/localcanvas_gateway/translation/service.py:391-404 | whitespace is exactly these twenty-nine characters |
| Translation.ScriptsApart | gateway/localcanvas_gateway/translation/detect.py:31-83 | Russian is told by Cyrillic and Japanese by kana, range by range, no character by both, and any other source by none |
| Translation.DetectedIsTheFirstPresent | gateway/localcanvas_gateway/translation/detect.py:86-97 | the first configured source whose script is in the text, and none exactly when there is no such one |
| Translation.TranslateText | gateway/localcanvas_gateway/translation/service.py:317-379 | applied exactly when a source other than the target is found; the translator is asked for exactly the cores to be replaced, and sees only trimmed cores that carry the source's script, and none with a quote when literals are kept |
| Translation.LiteralsSurvive | gateway/localcanvas_gateway/translation/service.py:317-379 | if the answers contain no quote, splitting the effective text again yields the same protected literals in the same order |
| Translation.OnlyCoresAreReplaced | gateway/localcanvas_gateway/translation/service.py:333-379 | for every translator, the effective text is the original with each core that was handed over replaced by its own answer, in order, and every other character where it was |
| Submission.Validate | gateway/localcanvas_gateway/validation.py:35-66 | accepts exactly the valid submissions and hands on exactly the supplied fields: the same number as an integer or as a float, anything else untouched |
| Submission.CheckValue | gateway/localcanvas_gateway/validation.py:69-188 | a value is accepted exactly when it fits its field, and goes on as the same number in the field's own kind, or untouched; `true` is no number |
| Submission.NumbersThatFit | gateway/localcanvas_gateway/validation.py:104-137 | an integer field takes exactly whole numbers in range, a float field exactly numbers in range, however they are written |
| Submission.Translate | gateway/localcanvas_gateway/translation/service.py:273-315 | only supplied translatable texts change |
| Submission.WriteIsOverlay | gateway/localcanvas_gateway/workflows/binding.py:96-97 | writing targets one by one amounts to overlaying them all at once |
| Submission.WrittenIsDriven | gateway/localcanvas_gateway/workflows/binding.py:76-97 | whatever is written at a target is the value of a supplied field that names it |
| Submission.DrivenIsWritten | gateway/localcanvas_gateway/workflows/binding.py:76-97 | every supplied field's value ends up at every target it names, whatever the other fields do |
| Submission.BoundGraphInputByInput | gateway/localcanvas_gateway/workflows/binding.py:74-99 | each input of the bound graph holds its field's value or what it held; other entries of its node, and nodes without inputs, are as they were |
| Submission.BindValues | gateway/localcanvas_gateway/workflows/binding.py:33-99 | the nested loops bind all supplied values, and fail as a binding only for values that are not ready |
| Submission.FieldOrderIsIrrelevant | gateway/localcanvas_gateway/workflows/binding.py:76-97 | the order of the fields plays no part in what is written |
| Submission.Prepare | gateway/localcanvas_gateway/api/jobs.py:93-125 | for every accepted definition and every submission, validating, translating and binding never ends in `workflow_unusable`; a valid one is refused exactly when a media reference of it is not there, and otherwise every submitted value is in the graph at each of its targets (the same number, the translated text, what the reference resolves to, or the value itself) and every other input is the curator's |

## Left out

What the model takes as given or does not cover:

- JobStore.Store.Refresh: calls on one job come one after another; two refreshes of one job that overlap are not modelled, and a terminal state is not absorbing for them because the assignment does not look again.
- JobStore.Store.Create: the id drawn is unused and ComfyUI gives each prompt an id of its own, so no entry is overwritten.
- JobSafety.PublishedResultsAreTheOutputs: the kinds and media types of outputs are fields of the record; reading them from ComfyUI's JSON and from file extensions is not modelled.
- JobSafety.EveryRunIsSound: the scrubbed reason of a failure is a field of the record; the scrubber itself (paths, tracebacks, node names) is not modelled.
- JobEvents.StreamRebuildsTheSnapshot: the client clears progress when a terminal state arrives, since no message says so.
- JobEvents.Watch: what the store had published at each turn and whether the client had gone are given; waiting, polling and sockets are not modelled.
- JobFrames.Listener.Handle: frames are given as read; binary frames, malformed JSON and unknown types are one kind of frame that does nothing.
- MediaStore.Store.Commit: items are values in the order their ids were entered, so a caller that keeps an item object and sees it change later is not modelled; a file that cannot be deleted is not modelled either.
- MediaProtocol.EveryInterleavingKeepsInvariant: random ids, the clock and chunk sizes are given by the steps; closing the store during an upload is not modelled.
- Markers.Evaluate: tokens and the host's variables are given, and so are the readers of version and clause texts; the lexer is not modelled.
- InstalledTree.UnsatisfiedRequirement: requirement texts are given as read or unreadable; which of several problems is worded how is not modelled beyond its kind.
- InstalledTree.MoreExtrasRequireMore: it is stated for the usual case in which the gateway's record is the distribution installed under its name.
- Versions.KeysOrderAsPrescribed: versions are given as parsed fields; the regular expression is not modelled, local version labels included.
- Registry.Resolve: definitions are given as read from their files, and the wording of a duplicate report is a parameter; discovering files is not modelled.
- Workflows.Parser.ParseInputs: each field comes with its own checks done (ids, labels, types, options, bounds, hints), as sound or flawed; YAML and JSON reading and presentation metadata are not modelled, and problems are counted, not worded.
- Submission.Validate: a refusal does not say which field or code; numbers are integers and reals, so NaN and infinities are not modelled.
- Submission.Translate: the translator answers every call; an unavailable or failing backend, which rejects the submission, is not modelled. The override that switches translation off is part of the configuration given.
- Submission.BindValues: the media resolver is a function from field and reference to an answer or a refusal; its upload to ComfyUI and its memo on the item are not modelled.
- Translation.DetectedIsTheFirstPresent: the languages told apart are those the code supports, by its own code point ranges; Han characters alone decide nothing, as in the code.
- Ebml.HeaderIsIdentifiedByItsFirstDocType: image signatures and the other video containers are not modelled.
- The rest of the icon generator: geometry, supersampling, PNG chunks with their CRC-32, XML drawables.
- HTTP routing, health probes, result streaming, configuration, discovery, QR codes, the launcher and the app.
