# Body inspection and capture ring of the proxy engine: a Dafny model

The engine forwards HTTP bodies while recording them to disk, redacts request
copies, searches and lays out recorded bodies, and keeps a bounded ring of
captures. This project models those parts and proves what they promise.

| file | models |
|---|---|
| `Search.dfy` | the linear matcher with its failure table, one bounded scan step, the search operation, the resuming driver of the user interface |
| `Utf8.dfy`, `CheckedReader.dfy` | RFC 3629 and the reader that validates UTF-8 and nesting read by read |
| `JsonLayout.dfy`, `JsonRender.dfy` | the byte-level JSON printer, an independent tokenizer, the grammar of RFC 8259 section 2, and the layout written from the value tree |
| `LayoutJob.dfy` | the printing loop and the layout of one body, as the code runs them |
| `Redaction.dfy`, `StoredCopy.dfy` | the built-in pass, pointer paths with wildcards, and what is stored of a request |
| `Pointers.dfy`, `Rfc6901.dfy` | the compilation of configured paths, and array indices as RFC 6901 spells them |
| `Hosts.dfy`, `HostRules.dfy` | host patterns, the overlap test and destination classes; what a written rule means |
| `Recording.dfy` | one recorded body as a transition system: tee, pipe, worker, cancellation, layout job |
| `Forwarding.dfy`, `Operations.dfy` | `poll_frame`, cancellation, the worker's loop and the layout job as the code runs them, each assignment being a step of that transition system |
| `Progress.dfy` | what a poll that waits is waiting for, and for how long |
| `Undisturbed.dfy` | any body, recorded from beginning to end with nobody in between |
| `Labels.dfy` | which step settles which label, for every codec and over all runs |
| `Trouble.dfy` | what may happen to a recording at any time, from any side |
| `Budget.dfy` | both stores, all copies in flight and the shared counter, over all runs |
| `Orphans.dfy`, `LayoutRuns.dfy` | copies abandoned on their way into a store, and the layout job, over all runs |
| `Captures.dfy`, `CaptureRuns.dfy` | the locked capture state with what its critical sections keep, and every interleaving with the tasks beside it |
| `CaptureStory.dfy`, `StoredBodies.dfy`, `Endings.dfy` | what a capture shows of what happened to it, what stays stored for it, and how every task beside the ring can end |
| `Engine.dfy` | captures and stores together, in agreement over all runs |
| `Pages.dfy` | page offsets |
| `Bytes.dfy`, `Text.dfy` | octets, optional values, results, trimming |

How it is modelled:

- A step of the recording protocol is one atomic access or a stretch nobody can
  interleave. Critical sections under the `result` lock that touch both
  `reserved` and the shared counter take two steps (`Section`), so conservation
  holds between the two atomics as well. `Reserve`/`Reserved`, `Remove`/`SectionEnds`
  and `LayoutReserve`/`LayoutReserved` are such pairs.
- The worker may die at any step outside its critical section; this covers every
  abort and its delay. Writes may be partial or fail. The consumer may vanish at
  any time. Entries that left their store but have an owner still count.
- Histories (`polled`, `yielded`, `teed`, `taken`) are fields of the model, not of
  the code.
- Outside facts are parameters: cancellation and read failures at each buffer
  boundary (`Weather`), the interplay with the search driver (`World`), Unicode
  lower-casing and white space, IP literals, the JSON parser's verdict.
- `Redaction.dfy` describes every pass as masking a set of positions. Order
  independence, idempotence, noninterference and locality follow from that one
  description.

What turned out not to hold, with the exact condition:

- A replacement body is stored without looking whether its capture is still
  retained. It leaves an orphan exactly when the capture is gone at that moment
  (`CaptureRuns.ReplacementLeavesOrphanExactlyWhenLate`; a run with a rule's body is
  `CaptureRuns.ReplacementCanComeTooLate`); every other orphan is impossible.
- A layout published after its entry was cancelled keeps its file open without any
  reservation, until the entry drops. After every run an open, non-empty layout is
  covered exactly when its entry is not cancelled (`LayoutRuns.OpenLayoutIsReserved`;
  a run is `LayoutRuns.CancelledEntryMayHoldALayout`).
- A store operation whose awaiting side is gone leaves a reservation nobody returns
  exactly when its copy is written after all; when writing fails it is returned
  (`Orphans.OrphansWereAbandonedAndWritten`). Once nothing else holds a reservation,
  the counter is back at zero exactly when no copy of any size was both abandoned and
  written (`Orphans.BudgetComesBackUnlessOrphaned`; runs with either outcome are
  `Orphans.AbandonedCopyStaysCharged` and `Orphans.AbandonedCopyMayFail`).
- The layout keeps the tokens exactly when no two scalars stand side by side
  (`JsonLayout.FormatKeepsTokens`), which every JSON text satisfies.
- A layout is refused as "unavailable" not only for a bad text: a cancelled or failed
  read of the validating pass has the same answer (`LayoutJob.FormatJson`, and
  `LayoutJob.CancelledTextIsRefused` for one text).
- An array index may have leading zeros or a plus sign, which RFC 6901 section 4 does
  not allow (`Rfc6901.PlusAndZeroAreAccepted`). A path means the same by the code and
  by the RFC, on all values, exactly when no segment is taken for an index in spite of
  such a spelling (`Rfc6901.AgreesWithRfcExactlyWhenStrict`).

- A rule in brackets with a dot after them is a rule for the name inside, but the same
  text as a host means that name exactly when no dot follows: a bracket before a dot is
  not taken off a host (`HostRules.BracketedRuleNamesItselfUnlessDotted`).

## Model

| member | source | states |
|---|---|---|
| Search.Advance | crates/engine/src/proxy/bodies/inspect.rs:230-237 | one byte moves the matcher to the longest pattern prefix that ends there; fallbacks are paid for by the matched length |
| Search.BuildTable | crates/engine/src/proxy/bodies/inspect.rs:207-217 | entry i is the longest proper border of the first i+1 needle bytes, in at most 2(n-1) moves |
| Search.ScanBuffer | crates/engine/src/proxy/bodies/inspect.rs:230-247 | a complete match is the leftmost occurrence of the whole range, also when it began in an earlier buffer; otherwise nothing stands so far |
| Search.ScanWindow | crates/engine/src/proxy/bodies/inspect.rs:219-248 | the same over all buffers of the window; fails only at a buffer boundary it reached, before any match |
| Search.Scan | crates/engine/src/proxy/bodies/inspect.rs:200-259 | one step agrees with the naive search; unfinished, it moves the answer to `nextOffset` unchanged, at the longest partial match; at most 2n+2b moves |
| Search.SearchStore | crates/engine/src/proxy/bodies/inspect.rs:50-88 | each refusal in its order; an unfinished step has start < next_offset <= end |
| Search.Find | src/ResponseBody.tsx:161-208 | the driver terminates and returns exactly the naive search's answer over the frozen range, although the file grows; undisturbed it always returns one; an error names the turn that was refused or met foul weather; all turns together are linear: at most three matcher moves a byte of the range and two a byte of the needle |
| Search.LeftmostIgnoresGrowth | src/ResponseBody.tsx:166-171 | bytes recorded after the freeze cannot change the answer |
| Search.HitsEnumerateAllOccurrences | src/ResponseBody.tsx:291-298 | restarting at found+1 reports every occurrence, overlapping ones too, once and in order |
| Utf8.ValidatorIsExact | crates/engine/src/proxy/bodies/inspect.rs:279-282 | the validator accepts exactly the encodings of Unicode scalar values |
| Utf8.ResumeFromTail | crates/engine/src/proxy/bodies/inspect.rs:277-285 | only the cut-off tail matters for what follows; a broken octet is never repaired |
| CheckedReader.Reader.TakeUtf8 | crates/engine/src/proxy/bodies/inspect.rs:277-285 | judging tail and read together is judging the whole stream; the kept tail is its cut-off character, at most 3 bytes |
| CheckedReader.Reader.TakePlaces | crates/engine/src/proxy/bodies/inspect.rs:286-307 | the read is refused exactly when the stream so far nests deeper than 128 somewhere |
| CheckedReader.Reader.Read | crates/engine/src/proxy/bodies/inspect.rs:272-309 | which read succeeds and which error it gives otherwise, in terms of the whole stream |
| CheckedReader.ReadToEnd | crates/engine/src/proxy/bodies/inspect.rs:271-310 | for every split into reads: accepted exactly when the stream is well-formed UTF-8, never nests too deeply, and no read was cancelled or failed |
| JsonLayout.FormatKeepsTokens | crates/engine/src/proxy/bodies/inspect.rs:408-451 | the token sequence survives exactly when no two scalars are neighbours |
| JsonLayout.LayoutPreservesMeaning | crates/engine/src/proxy/bodies/inspect.rs:408-451 | for every JSON text the tokens are the same, byte for byte, and the layout is a JSON text again |
| JsonLayout.FormatChangesOnlySpace | crates/engine/src/proxy/bodies/inspect.rs:416-450 | stripped of whitespace outside strings, output and input are equal, and end at the same place |
| JsonLayout.FormatIsCanonical | crates/engine/src/proxy/bodies/inspect.rs:408-451 | two texts have the same layout exactly when they differ in loose whitespace only; layout is idempotent |
| JsonLayout.FormatSize | crates/engine/src/proxy/bodies/inspect.rs:431-447 | the output is at most 258 times the input |
| JsonLayout.WalkIsDepth | crates/engine/src/proxy/bodies/inspect.rs:286-307 | the reader's saturating depth is the true bracket depth wherever the tokens balance |
| JsonLayout.JsonIsBalanced | crates/engine/src/proxy/bodies/inspect.rs:436-437 | in a JSON text the printer's depth never underflows and ends at zero |
| JsonRender.FormatIsRender | crates/engine/src/proxy/bodies/inspect.rs:431-449 | the layout of every JSON text is its value tree written with one entry a line, two spaces a level, a colon and a space after a name, and the closing bracket on a line at the outer level |
| JsonRender.TokensAreTheText | crates/engine/src/proxy/bodies/inspect.rs:416-450 | the tokens of a text, one after the other, are the text without its loose whitespace |
| JsonRender.AlphabetIsRfc8259 | crates/engine/src/proxy/bodies/inspect.rs:417-448 | brackets, punctuation, whitespace, quote and backslash are those of RFC 8259 section 2 |
| LayoutJob.PrintByte | crates/engine/src/proxy/bodies/inspect.rs:416-450 | one round emits what the place calls for and moves as the reader does, so that the loop writes the rendered value |
| LayoutJob.Print | crates/engine/src/proxy/bodies/inspect.rs:408-452 | the loop prints the layout of the whole body exactly when no offset it reaches, the end included, stops it |
| LayoutJob.FormatJson | crates/engine/src/proxy/bodies/inspect.rs:363-456 | unavailable exactly for what the parser or the reader refuses or a read of the first pass that is cancelled or fails; otherwise interrupted exactly when the second pass is stopped; a finished layout is the rendered value, has the same tokens, is JSON, and is bounded |
| LayoutJob.CancelledTextIsRefused | crates/engine/src/proxy/bodies/inspect.rs:273-275 | a text with nothing wrong, refused because the layout was cancelled while it was validated |
| Redaction.BuiltInIsMask | crates/engine/src/proxy/bodies.rs:414-447 | the recursive pass masks exactly the positions reached through a sensitive key |
| Redaction.PathIsMask | crates/engine/src/proxy/bodies.rs:489-519 | a pointer masks exactly the positions of its depth whose steps all match, wildcards and indices included |
| Redaction.PassesCommuteAndRepeat | crates/engine/src/proxy/bodies.rs:166-169 | only the set of passes counts, not their order or repetition |
| Redaction.PassesAreStable | crates/engine/src/proxy/bodies.rs:166-169 | applying any of the same passes again changes nothing |
| Redaction.RedactionNoninterference | crates/engine/src/proxy/bodies.rs:164-170 | two values are stored alike exactly when they agree outside the covered positions |
| Redaction.RedactionLocality | crates/engine/src/proxy/bodies.rs:164-170 | a covered position reads back as the marker; one with nothing covered above or below keeps its value |
| StoredCopy.SensitivityIgnoresSpelling | crates/engine/src/proxy/bodies.rs:416-436 | keys that differ in separators and letter case only are sensitive alike |
| StoredCopy.SensitiveKeysAre | crates/engine/src/proxy/bodies.rs:416-436 | a key is sensitive exactly when, lower-cased and without separators, it is one of the listed words |
| StoredCopy.StoredNoninterference | crates/engine/src/proxy/bodies.rs:164-170 | two requests are stored alike exactly when they agree outside what lies beneath sensitive keys and configured pointers |
| StoredCopy.StoredLocality | crates/engine/src/proxy/bodies.rs:164-170 | a position beneath a sensitive key or pointer reads back as the marker; one with nothing hidden above or below is unchanged |
| StoredCopy.StoredIsStable | crates/engine/src/proxy/bodies.rs:166-169 | order and repetition of pointers are irrelevant; storing a stored copy again changes nothing |
| Rfc6901.ParsedIndexIsRfcIndex | crates/engine/src/proxy/bodies.rs:511 | of the segments taken for an index, exactly those without plus sign and leading zero follow RFC 6901 |
| Rfc6901.ParseIndexIsExact | crates/engine/src/proxy/bodies.rs:511 | a segment is taken for index n exactly when it is the decimal spelling of n, at most the largest machine word, after any zeros and at most one plus sign |
| Rfc6901.SpellingIsUnderstood | crates/engine/src/proxy/bodies.rs:511 | the decimal spelling of a number is taken for that number, up to the largest machine word, and an index without plus sign and leading zero is spelled so |
| Rfc6901.NumberRedactsItsItem | crates/engine/src/proxy/bodies.rs:510-516 | a path whose first segment spells n redacts item n of an array along the rest of the path, and no other item |
| Rfc6901.PlusAndZeroAreAccepted | crates/engine/src/proxy/bodies.rs:510-516 | the inputs +1 and 01, which the code follows into an array and the RFC does not |
| Rfc6901.AgreesWithRfcExactlyWhenStrict | crates/engine/src/proxy/bodies.rs:489-519 | code and RFC redact alike on every value exactly when no segment of the path is a loosely spelled index |
| Pointers.DecodeSegment | crates/engine/src/proxy/bodies.rs:472-487 | the loop computes the specified decoding |
| Pointers.DecodeUndoesEscape | crates/engine/src/proxy/bodies.rs:472-487 | decoding inverts RFC 6901 escaping, whose result has no slash |
| Pointers.EscapeUndoesDecode | crates/engine/src/proxy/bodies.rs:472-487 | escaping inverts decoding on slash-free segments |
| Pointers.DecodeRejectsMalformed | crates/engine/src/proxy/bodies.rs:480-484 | refused exactly for a tilde not followed by 0 or 1 |
| Pointers.CompileIsExact | crates/engine/src/proxy/bodies.rs:456-468 | a path compiles to given segments exactly when it is their RFC 6901 spelling of at most 512 bytes |
| Pointers.CompilePathsIsExact | crates/engine/src/proxy/bodies.rs:449-470 | at most 64 paths; blank ones are skipped, the others compiled in order, all or none |
| Pointers.PathRefusalIsExact | crates/engine/src/proxy/bodies.rs:459-468 | a path is refused for its length or first character, else exactly for a segment with a malformed escape |
| Pointers.PathsRefusalIsExact | crates/engine/src/proxy/bodies.rs:449-470 | a list is refused for more than 64 paths, else for the first of its paths that is refused |
| Pointers.ByteLengthIsEncoded | crates/engine/src/proxy/bodies.rs:459 | the length that is limited is that of the UTF-8 encoding |
| Text.TrimIsExact | crates/engine/src/proxy/bodies.rs:454 | trimming leaves exactly what stands between the blanks, with none at its ends |
| Hosts.OverlapIsExact | crates/engine/src/proxy.rs:339-360 | two patterns overlap exactly when some host matches both |
| Hosts.CompileIsUnambiguous | crates/engine/src/proxy.rs:382-409 | rules are refused as ambiguous exactly when some host matches both lists |
| Hosts.ListOrderIsIrrelevant | crates/engine/src/proxy.rs:411-433 | after a successful compile the order of the two list checks changes no verdict |
| HostRules.ClassIsExact | crates/engine/src/proxy.rs:411-433 | Production exactly when a production pattern matches the normalized host; else Development exactly when a development pattern does or the host is local; else Unknown |
| HostRules.PlainRuleNamesItself | crates/engine/src/proxy.rs:311-336 | a name in any letter case, with blanks around and dots behind, is a rule for exactly that host, and as a host means that name |
| HostRules.WildcardRuleCoversSubdomains | crates/engine/src/proxy.rs:318-322 | a wildcard before a host name is a rule for exactly the hosts ending in a dot and that name |
| HostRules.BracketedRuleNamesItselfUnlessDotted | crates/engine/src/proxy.rs:326-336 | a bracketed name is a rule for that name; as a host it means the name exactly when no dot follows the bracket |
| HostRules.RefusalIsExact | crates/engine/src/proxy.rs:311-336 | which rule is refused and why: length and alphabet first, then a misplaced wildcard, then what is neither host name nor address |
| HostRules.HostnameIsExact | crates/engine/src/proxy.rs:362-373 | a name is valid exactly when the labels its dots separate have one to 63 allowed characters and no hyphen at an end |
| HostRules.HostnamesArePlain | crates/engine/src/proxy.rs:362-373 | every valid lower-case host name can be written as a rule |
| HostRules.LowerIgnoresCase | crates/engine/src/proxy.rs:313 | names that differ in ASCII letter case only are the same, and nothing else is changed |
| HostRules.AcceptedRulesAreNames | crates/engine/src/proxy.rs:318-336 | an accepted pattern holds a host name, or without a wildcard an address, and no further wildcard |
| HostRules.EveryRuleCounts | crates/engine/src/proxy.rs:388-395 | every rule is compiled in its place, and the first that is refused refuses the list |
| HostRules.RulesAreBounded | crates/engine/src/proxy.rs:383-387 | lists are refused for their length exactly beyond 128 rules |
| Recording.StepKeepsSound | crates/engine/src/proxy/bodies.rs:336-401 | every atomic step of body, tap, worker, store or layout job keeps the entry sound, and changes the counter by what the entry answers for |
| Recording.StepSticks | crates/engine/src/proxy/bodies.rs:56-61 | a settled label, cancellation, a ready layout and the bytes of a complete recording never change |
| Recording.ReleaseMeansTeed | crates/engine/src/proxy/bodies.rs:577-609 | a frame is released only when all data so far is in the pipe or the tap is gone |
| Recording.CompleteIsWhole | crates/engine/src/proxy/bodies.rs:362-400 | the worker meets its end with the label open only after the whole inner body was teed |
| Recording.LossIsNeverComplete | crates/engine/src/proxy/bodies.rs:532-537 | for any codec an exhausted budget, a failed read or write, or an early tap drop, and for identity a failed stream, settles a label other than complete |
| Recording.DiskIsPrefixOfData | crates/engine/src/proxy/bodies.rs:389-398 | the disk always holds a prefix of the data |
| Recording.CancellingDooms | crates/engine/src/proxy/bodies.rs:45-55 | cancelling on either side, before the job's last look at the flags, leaves its layout unpublishable |
| Labels.StepGivesLabel | crates/engine/src/proxy/bodies.rs:336-401 | every step, for every codec: which label an open recording has after it; a settled label stays |
| Labels.OnlyTheEndCompletes | crates/engine/src/proxy/bodies.rs:358-400 | a label becomes complete only when the worker completes, and the worker gets there only by taking the end |
| Labels.UnsupportedIsNeverComplete | crates/engine/src/proxy/bodies.rs:348-354 | after any run a recording of an unsupported encoding is empty and not complete, and no other is unavailable |
| Labels.UnsupportedBecomesUnavailable | crates/engine/src/proxy/bodies.rs:348-354 | undisturbed, the first step of the worker of an unsupported encoding labels it unavailable and ends it |
| Labels.LabelIsForever | crates/engine/src/proxy/bodies.rs:56-61 | the label that a step of a run settles is the one it gives, in every continuation |
| Trouble.WorkerMayFail | crates/engine/src/proxy/bodies.rs:358-398 | in every sound state outside a critical section the worker may be aborted, and a read or write may fail; each ends it where it stands and none completes the recording |
| Trouble.ChunkIsJudged | crates/engine/src/proxy/bodies.rs:370-388 | in every such state a chunk is reserved, over the budget, or refused because of a cancellation: exactly one of them, by flag and counter |
| Trouble.EntryGoesWithItsLastOwner | crates/engine/src/proxy/bodies.rs:63-68 | an entry is dropped exactly when neither store, tap, worker nor layout job owns it |
| Trouble.AnybodyMayBegin | crates/engine/src/proxy/bodies.rs:313-333 | in every reachable state a recording may begin under any key, displacing what is stored there, and a copy may begin |
| Undisturbed.RecordWhole | crates/engine/src/proxy/bodies.rs:541-613 | any body within the budget, whatever its frames, is forwarded frame by frame and ends recorded, complete, whole and paid for |
| LayoutRuns.LayoutReservation | crates/engine/src/proxy/bodies/inspect.rs:102-152 | after any run a live complete entry without a job reserves its raw bytes, plus the layout's exactly when ready; it says building exactly while a job runs; a start finds neither a job nor a leftover reservation |
| Recording.StepKeepsUnpublishable | crates/engine/src/proxy/bodies/inspect.rs:121-152 | no step of anybody but a new start leads out of a cancelled or failed layout |
| LayoutRuns.CancelledLayoutIsNotPublished | crates/engine/src/proxy/bodies/inspect.rs:121-130 | cancelled before the last look at the flags, a layout is never published, over every continuation of every run without a new start |
| LayoutRuns.CancelIsObeyed | crates/engine/src/proxy/bodies/inspect.rs:89-131 | in every run, once the user or the store cancels before the job's last look at the flags, no continuation without a new start publishes the layout |
| LayoutRuns.OpenLayoutIsReserved | crates/engine/src/proxy/bodies/inspect.rs:131-140 | after any run an open layout is as long as the layout of the recorded bytes and, unless empty, covered by the reservation exactly when the entry is not cancelled |
| LayoutRuns.CancelledEntryMayHoldALayout | crates/engine/src/proxy/bodies/inspect.rs:121-140 | a run from nothing that ends with a layout file nothing reserves |
| Forwarding.RecordedBody.TakeTap | crates/engine/src/proxy/bodies.rs:532-537 | dropping the tap settles the label before the pipe closes |
| Forwarding.RecordedBody.JoinWorker | crates/engine/src/proxy/bodies.rs:600-608 | at the end the input closes first; the tap goes only when the worker is done |
| Forwarding.RecordedBody.TeePending | crates/engine/src/proxy/bodies.rs:578-599 | the loop ends with the frame fully teed or the tap gone, or waits exactly when the pipe takes none of the bytes left |
| Forwarding.RecordedBody.PollInner | crates/engine/src/proxy/bodies.rs:554-576 | the branch without a frame in hand, by what the inner body gives |
| Forwarding.RecordedBody.PassOn | crates/engine/src/proxy/bodies.rs:577-609 | hands on the frame in hand, teed or without a tap, unless the pipe takes none of it or the worker is still busy behind a closed input |
| Forwarding.RecordedBody.PollFrame | crates/engine/src/proxy/bodies.rs:550-610 | one call is a sequence of enabled protocol steps; it is pending exactly when the inner body is not ready, the pipe takes none of the bytes left, or the worker is busy behind a closed input; otherwise it yields the pending or the polled frame, once, or the end or the error of the inner body |
| Progress.WaitingIsForSomebody | crates/engine/src/proxy/bodies.rs:585-608 | whenever a poll can only wait, for room in the pipe or for the worker, some step of the worker or the end of a critical section is enabled |
| Progress.StepsRunOut | crates/engine/src/proxy/bodies.rs:358-400 | every such step of an identity recording lowers a bound on how many there can be before more input arrives |
| Progress.WaitingEnds | crates/engine/src/proxy/bodies.rs:585-608 | from every sound state at most that many of them lead to where no poll waits |
| Operations.Cell.Remove | crates/engine/src/proxy/bodies.rs:45-55 | removal cancels, closes the files and returns the whole reservation |
| Operations.Cell.ReserveChunk | crates/engine/src/proxy/bodies.rs:370-388 | reserves exactly when not cancelled and within the limit |
| Operations.Cell.WriteChunk | crates/engine/src/proxy/bodies.rs:389-398 | the chunk lands behind the bytes before it, and the length is published after |
| Operations.Cell.RunWorker | crates/engine/src/proxy/bodies.rs:358-400 | undisturbed, whatever each read returns, the worker ends complete with the whole body exactly when budget and disk have room for all of the pipe, else partial with a prefix |
| Operations.Cell.WriteLayout | crates/engine/src/proxy/bodies/inspect.rs:320-344 | reserves exactly when neither flag is set and the limit allows, else changes nothing |
| Operations.Cell.FailLayout | crates/engine/src/proxy/bodies/inspect.rs:349-360 | a failed layout returns what its writer reserved, unless a cancellation already did |
| Operations.Cell.BuildLayout | crates/engine/src/proxy/bodies/inspect.rs:118-152 | undisturbed, whatever the sizes of its writes, the job publishes exactly when neither flag is set, the budget has room for the whole layout, and no read, write or flush fails before its end; else nothing stays reserved, although the buffer is flushed once more on drop |
| Operations.Cell.AskLayout | crates/engine/src/proxy/bodies/inspect.rs:89-117 | only a complete body is laid out; cancelling flags the job at hand; a start begins a job with a token of its own unless one runs or is done, or no permit is free |
| Budget.BudgetIsConserved | crates/engine/src/proxy/bodies.rs:44-68 | after any run the counter is the sum over all undropped entries and copies in flight; nothing goes below zero; a cancelled entry reserves nothing |
| Budget.BudgetIsNeverExceeded | crates/engine/src/proxy/bodies.rs:173-176 | under a fixed limit the counter never exceeds it |
| Budget.CompleteIsExact | crates/engine/src/proxy/bodies.rs:336-401 | after any run a complete identity recording is the data of the whole inner body |
| Budget.ForwardingIsTransparent | crates/engine/src/proxy/bodies.rs:541-613 | after any run the frames yielded are the inner frames in order, but for the one in hand; the pipe is bounded and carried a prefix |
| Budget.LossIsForever | crates/engine/src/proxy/bodies.rs:532-538 | after any such loss no continuation of the run is ever complete, for any codec |
| Budget.PageCarriesFinalTotal | crates/engine/src/proxy/bodies.rs:278-312 | a page that saw the label complete reads the final length, whatever happens in between |
| Budget.DisplacedEntryGoesOn | crates/engine/src/proxy/bodies.rs:206-208 | a new recording lets the one it displaces go on, a stored copy cancels it and closes its files; its bytes and label stay |
| Budget.CopyIsReservedWhenItFits | crates/engine/src/proxy/bodies.rs:173-176 | a waiting copy is reserved exactly when it fits the budget, else refused without a change of the counter |
| Orphans.BudgetComesBackUnlessOrphaned | crates/engine/src/proxy/bodies.rs:173-194 | after any run, when nothing holds a reservation any more, the counter is zero exactly when no copy of any size was both abandoned and written |
| Orphans.OrphansWereAbandonedAndWritten | crates/engine/src/proxy/bodies.rs:214-239 | after any run the orphaned copies are exactly those abandoned and written |
| Orphans.OrphansStayCharged | crates/engine/src/proxy/bodies.rs:214-239 | a copy abandoned and written stays as it is, and charged, in every continuation |
| Orphans.AbandonedCopyStaysCharged | crates/engine/src/proxy/bodies.rs:214-239 | a run from nothing whose budget never comes back |
| Orphans.AbandonedCopyMayFail | crates/engine/src/proxy/bodies.rs:233-236 | the same copy, whose writing fails, gives its reservation back |
| Captures.Shared.PopFront | crates/engine/src/proxy.rs:1429-1435 | the oldest capture is gone with every breakpoint, template and stored body under its id; every other id keeps its capture and all that hangs on it |
| Captures.Shared.BeginExchange | crates/engine/src/proxy.rs:1425-1474 | a pending capture under a never used id comes last; exactly at the limit the oldest goes with all that hung on it; nothing else changes and the ring invariant holds |
| Captures.Shared.Start | crates/engine/src/proxy.rs:961-970 | as many of the oldest captures go as exceed the new limit, with all that hung on them, and no others |
| Captures.Shared.Clear | crates/engine/src/proxy.rs:1041-1051 | no id is retained, hangs in a side table or is stored any more; counters restart, ids do not |
| Captures.Shared.UpdateCapture | crates/engine/src/proxy.rs:1142-1151 | changes the retained capture with that id, else nothing; every other capture stays the same in its place |
| Captures.Shared.Finish | crates/engine/src/proxy.rs:1152-1162 | settles a pending phase once; a settled or missing capture and all others stay as they were |
| Captures.Shared.TryBreak | crates/engine/src/proxy.rs:1727-1755 | stops exactly a retained Development capture while enabled, marks it waiting, and touches no other |
| CaptureRuns.RingIsConsistent | crates/engine/src/proxy.rs:1425-1474 | after any run: ids increase, length within limit and as counted, begun = retained + evicted, breakpoints and templates hang on retained captures, breakpoints on waiting ones, rules and breakpoints on Development ones |
| CaptureRuns.OrphansAreExactlyLateReplacements | crates/engine/src/proxy.rs:1205-1228 | after any run no request copy is an orphan once its task has rechecked, and an orphaned response is exactly a replacement that was stored too late |
| CaptureRuns.ReplacementLeavesOrphanExactlyWhenLate | crates/engine/src/proxy.rs:1821-1830 | after any run a replacement leaves an orphan exactly when its capture is not retained when it is stored |
| CaptureRuns.ReplacementCanComeTooLate | crates/engine/src/proxy.rs:1785-1830 | a run, with a rule that has a body, that ends with such an orphan |
| CaptureRuns.OnlyDevelopmentIsRewritten | crates/engine/src/proxy.rs:1699-1783 | after any run a response is only rewritten, and a replacement only stored, while its capture is gone or of the Development class |
| CaptureRuns.PhaseIsFinal | crates/engine/src/proxy.rs:1152-1160 | over any continuation ids are not reused, classes stay, and a phase leaves pending at most once |
| Endings.ExchangeCanBeServed | crates/engine/src/proxy.rs:1699-1783 | from wherever a run has led, any forwarding task can be served within three steps |
| Endings.RecordingCanEnd | crates/engine/src/proxy.rs:1870-1881 | from wherever a run has led, a recording task can end, and then its body is stored only if its capture is retained |
| Endings.CopyCanEnd | crates/engine/src/proxy.rs:1205-1228 | the same for the task that stores a request copy |
| Endings.AnswerCanBeStored | crates/engine/src/proxy.rs:1821-1830 | wherever an exchange is answered its body can be stored: a replacement then is stored, a recorded body exactly when its capture is still retained |
| StoredBodies.LimitIsTheLastSet | crates/engine/src/proxy.rs:961-970 | after any run the ring is no longer than the limit it was last started with |
| StoredBodies.RetainedBodiesStay | crates/engine/src/proxy.rs:1870-1881 | over any continuation of any run, what is stored of a capture's request or response stays stored as long as the capture is retained |
| CaptureStory.BreakpointIsResolvedOnce | crates/engine/src/proxy.rs:722-735 | in every run an exchange's breakpoint is resolved at most once, and nothing hangs on it from then on |
| CaptureStory.AbortedDoesNothing | crates/engine/src/proxy.rs:1699-1830 | in every continuation of every run an aborted forwarding task rewrites nothing, stops nowhere and stores nothing |
| StoredBodies.IdsAreGivenInTurn | crates/engine/src/proxy.rs:1425-1427 | after any run ids have been given out one after the other from 1, one for each exchange begun, whatever was cleared or evicted |
| CaptureStory.CaptureShowsItsStory | crates/engine/src/proxy.rs:1699-1783 | after any run a retained capture shows the rule chosen and noted for it, its breakpoint as it was stopped or decided, and the first end reported |
| CaptureStory.ReplacementIsFromRuleOrDecision | crates/engine/src/proxy.rs:1785-1830 | after any run a replacement is only stored when the rule or the decision gave a body, and the response only recorded when neither did |
| Engine.RunAgrees | crates/engine/src/proxy/bodies.rs:257-266 | over every run of captures and stores together, a body is stored under an id exactly when the captures say so |
| Engine.ClearingReturnsTheBudget | crates/engine/src/proxy.rs:1041-1051 | once no capture is left and all tasks are over, what is still stored is exactly the replacements that came too late; they and the copies in flight are all the budget in use; without them nothing is |
| Pages.PagesTile | src/ResponseBody.tsx:405-428 | from every offset, aligned or not, the pages tile the rest of the body exactly |
| Pages.NextEndsAtLast | src/ResponseBody.tsx:405-428 | pressing "next" ends where "last" leads exactly from a page boundary before the end, or in an empty body |
| Pages.PageIsExact | crates/engine/src/proxy/bodies.rs:262-305 | a page is refused for its length first, then for lying beyond the end, then for a removed file; else it shows the recorded bytes from its offset, as many as asked for unless the body ends before |

## Left out

- LayoutJob.FormatJson: the parser is a library; its verdict is a parameter that may only accept what the grammar over tokens accepts. The spelling inside a scalar or string token is not checked, so the theorems cover more texts than JSON has.
- Budget.CompleteIsExact: byte equality is claimed for identity encoding; other codecs deliver arbitrary chunks, and only budget, label and forwarding statements cover them.
- Forwarding.RecordedBody.PollFrame: one call without interference; interference between its assignments is covered by the transition system, whose steps are these assignments.
- Operations.Cell.RunWorker: runs on a pipe already closed; a worker that waits for more input is covered by the transition system.
- Operations.Cell.BuildLayout: one job without interference; cancellation between its assignments is covered by the transition system.
- Progress.StepsRunOut: for identity encoding; a decoder may deliver any number of chunks from the same input, so only the enabled step is claimed for other codecs.
- Engine.ClearingReturnsTheBudget: the removals of one critical section are steps nobody else interleaves.
- Captures.Shared.TryBreak: the status code and the revision counter are not modelled.
- CaptureRuns.OrphansAreExactlyLateReplacements: aborting the runtime in the middle of a store task is not modelled.
- Sockets, TLS, tunnels, header rewriting, replay tokens, certificate handling and readiness gates.
- Compression codecs, creating and opening files, disk encoding of the pretty-printed request copy.
- The two analysis permits are only a refusal (`Busy`); their count is not followed through runs.
- Panics and poisoned locks, memory orderings weaker than sequential consistency.
- React rendering, settings, exports and packaging.
