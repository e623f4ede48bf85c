# Agent-First Mail: verified models

Agent-First Mail keeps mail in a local work tree and pushes confirmed changes. This project
models eight of its cores and proves what they promise, for every input, every run and every
interleaving:

- **Publishing once** (`PublishProtocol`, `PublishSafety`, `PublishAttempt`). File channels make an
  output visible with read, temporary file, write, flush, hard link, compare, unlink. Any number of
  attempts run as a step machine over names, inodes and bytes; reads and writes move in chunks of any
  size, any call may fail, any attempt may die between two calls. `Publisher` is the code itself, run
  with interference between its calls, and proved to be an attempt of that machine.
- **Pulling file channels** (`Evidence`, `PullDecisions`, `PullIdentity`, `PullAgreement`, `PullRun`,
  `Sorting`, `ChannelPaths`). A nested loop over sources and inputs that spends one budget, keeps write-once
  evidence and accounts for every input; and the path rules that decide which channels may run.
- **Moving a message over IMAP** (`CopyUid`, `MailStore`, `ImapMove`). MOVE, or copy, flag deleted and
  expunge, over a server that may refuse any command or lose the connection before or after it took
  effect; then finding out where the message went. Standards: sections 2.1 and 3 of RFC 4315,
  sections 3.3 and 4.3 of RFC 6851, section 6.4.7 of RFC 3501.
- **Draft bodies** (`DraftContent`, `DraftLens`, `DraftOutbound`, `DraftLeaks`, `DraftExamples`,
  `AuthoredText`). Marker lines, a replacement that is a lens, the text that leaves the workspace, and the
  comment scanner.
- **The reply observer** (`StatusReader`). A bounded line buffer, byte by byte, against a whole-text
  specification.
- **Markdown blocks** (`BlockBuilder`, `BlockLaws`). A mutable builder driven by any sequence of events,
  against a page of characters that the same events describe, and what that page means.
- **Authentication results** (`Authentication`, `AuthenticationResults`, `PrintedResults`). Two
  comment-aware scanners that agree, a fold over all headers, and what a printed segment reads as.
- **Plan ids and frontmatter** (`PlanId`, `Frontmatter`). A canonical form of JSON that decides
  equality; a splitter and a renderer that undo each other.

`Text` and `Wrappers` hold what they share. `dafny verify dfyconfig.toml` checks everything.

Where the code does not do what its comments or a first reading suggest, the model follows the code,
states the exact condition, and gives an input at which it fails:

- The comment at `src/channels/files.rs:535-536` says that only durable evidence consumes the budget
  and a failed write does not. A publication that fails after its hard link (the directory flush) leaves
  evidence and consumes nothing (`PullDecisions.VisibleFailureIsFree`). Consumed and published agree
  exactly when no publication that is reached fails after its link (`PullDecisions.ConsumedIsPublished`).
- A retry with the same bytes does not always succeed: a payload over `max_bytes` is published by its
  own link, but is never recognised again (`PublishSafety.OversizedRetryFails`).
  `PublishSafety.RetryOutcome` and `CleanOutcome` give the condition; payloads within the limit always
  meet it.
- Replacing the authored text gives a body that parses exactly when the trimmed text has no marker line
  (`DraftLens.ReplacementParses`, `DraftExamples.MarkerTextDoesNotParse`); putting back what was read is
  the identity exactly when the compose section has no break in front and one line ending at its end
  (`DraftLens.GetThenPut`, `DraftExamples.EmptySectionGrows`).
- A marker line can leave the workspace: one hidden by extra carriage returns is no marker line for the
  removal, but becomes one when the result is trimmed (`DraftExamples.MarkerLeaves`). It happens exactly
  when the first or the last kept line that is not blank reads as a marker without the breaks around it
  (`DraftLeaks.MarkerLeavesIff`), and never when carriage returns occur only before line feeds
  (`DraftOutbound.NoMarkerLeaves`).
- A dry run and a real run decide alike exactly when no identity accepted by the dry run occurs twice
  (`PullAgreement.DryRunAgrees`): the dry run counts the second one again, the real run merges or refuses
  it (`PullAgreement.RepeatedInputDisagrees`).
- Frontmatter survives rendering and splitting exactly when none of its lines is a fence or ends in a
  carriage return (`Frontmatter.SplitOfRender`, `Frontmatter.FenceIsLost`); a document that was split once
  always does (`Frontmatter.RenderOfSplit`).
- A list item whose text stands in a paragraph of its own loses its number or bullet: the item's block is
  still empty when the paragraph starts, and empty blocks vanish (`BlockLaws.LooseItemLosesMarker`).
- A search hit that is unique in the target is the moved message exactly when the message carries the
  Message-ID searched for (`ImapMove.UniqueHitIsMessage`, `ImapMove.UniqueHitIsAnother`).

Assumptions, stated as parameters or preconditions: temporary names are unique and only publish attempts
write the directory; a failed link made no link; the digest in a message id identifies the pair of source
and external id; a failed server command has either its whole effect or none, and one with a tagged NO or
BAD has none; nobody else writes the mailboxes during a move.

## Model

| member | source | states |
|---|---|---|
| PublishProtocol.StepInv | src/channels/files.rs:352-417 | every system call of every attempt, whether it succeeds, fails or is the last before a crash, keeps the directory invariant and what all other attempts rely on, and never changes a bound target |
| PublishProtocol.ActGuarantee | src/channels/files.rs:383-415 | a call of one attempt changes only that attempt's temporary name and inode; the linked inode is never written again |
| PublishProtocol.ActReadInv | src/channels/files.rs:286-325 | a bounded chunked read of the target ends with exactly the target's bytes, or with too-large exactly when they exceed the limit |
| PublishProtocol.ActTailInv | src/channels/files.rs:395-416 | linking, comparing, flushing the directory and removing the temporary name keep what the coming outcome claims; that the removal removes is `PublishSafety.OnlyFailedRemovalsLitter` |
| PublishSafety.TargetIsWriteOnce | src/channels/files.rs:327-331 | over every interleaving from an empty directory the target is bound at most once, to one attempt's whole payload, and keeps inode and bytes from then on |
| PublishSafety.OutcomesAreTruthful | src/channels/files.rs:333-345 | Published means the target holds these bytes now and forever, BeforeLink means this attempt linked nothing, a conflict means different bytes are there, any visible error means something is published |
| PublishSafety.PublishedAgree | src/channels/files.rs:352-417 | two attempts that both report success published equal bytes |
| PublishSafety.CleanOutcome | src/channels/files.rs:357-415 | without I/O failures an attempt succeeds if and only if the target holds its bytes and they fit the limit or it linked them itself |
| PublishSafety.WaitFree | src/channels/files.rs:352-417 | no schedule makes an attempt take more calls of its own than a bound given by its payload and its limit |
| PublishSafety.RetryOutcome | src/channels/files.rs:327-331 | a retry started in any reachable state, in particular after any crash, and left alone returns, and succeeds if and only if nothing was published or its own bytes were and fit the limit; it leaves no temporary name |
| PublishSafety.OnlyFailedRemovalsLitter | src/channels/files.rs:383-416 | on every run from an empty directory, the temporary name of an attempt that returned is there only if one of its own removals failed, and nobody else has one |
| PublishSafety.SuccessIsFlushed | src/channels/files.rs:391-414 | on every run the linked file was flushed by its attempt before, and an attempt that called for a link reports success only after it flushed the directory, whoever had linked |
| PublishSafety.OversizedRetryFails | src/channels/files.rs:286-325 | with a one-byte payload and a limit of zero the first attempt publishes, and an undisturbed retry with the same bytes is not successful |
| PublishAttempt.Publisher.ReadRegular | src/channels/files.rs:286-325 | stat, open, identity check and bounded read, with other attempts acting in between, take the machine's transitions |
| PublishAttempt.Publisher.PublishStaged | src/channels/files.rs:352-417 | the code, with interference at every call, runs as an attempt of the machine to the outcome it returns, and that outcome is true of the disk; its temporary name is left only when its own removal failed in that run, and never when no call fails |
| Evidence.EvidenceFits | src/channels/files.rs:488-530 | the JSON envelope of any accepted input is at most six times the limit plus 4096 bytes, which is the limit under which it is read again |
| Evidence.DecodeEncode | src/channels/files.rs:237-246 | decoding an envelope gives back every field, the input byte for byte, through the escapes of section 7 of RFC 8259 |
| Evidence.EscapesAre | src/channels/files.rs:529-530 | which bytes are written as they are, and the two-character and hexadecimal escapes of section 7 of RFC 8259 for the others |
| Evidence.ReadAllEscaped | src/channels/files.rs:237-246 | reading an escaped string stops at its closing quote with the original bytes |
| PullDecisions.BudgetIsConserved | src/channels/files.rs:505-541 | neither budget underflows, and consumed count and bytes are exactly those of the accepted inputs |
| PullDecisions.EvidenceIsCounted | src/channels/files.rs:532-541 | new evidence files are the consuming decisions plus the publications that failed after their link |
| PullDecisions.ConsumedIsPublished | src/channels/files.rs:534-538 | the consumed count equals the number of new evidence files if and only if no input whose publication is reached has it fail after the link |
| PullDecisions.VisibleFailureIsFree | src/channels/files.rs:534-538 | a pull of one input whose publication fails after its link leaves one evidence file and both budgets as they were |
| PullDecisions.SkipsAreJustified | src/channels/files.rs:505-518 | a skipped input failed the reported budget test when it was reached, and later only smaller inputs, or none, are accepted |
| PullDecisions.EvidenceIsWriteOnce | src/channels/files.rs:488-504 | no pull, real or dry and whatever fails, changes or removes evidence |
| PullDecisions.LandedStaysMerged | src/channels/files.rs:488-504 | the bytes of an input that once landed are merged by every later pull of that source, real or dry, with any budget, any file name and a limit that was not lowered |
| PullDecisions.OtherBytesConflict | src/channels/files.rs:496-501 | other bytes under a landed identity are refused as a conflict by every later pull with a limit that was not lowered |
| PullIdentity.EveryDecision | src/channels/files.rs:475-545 | every decision of a pull told by source, external id, budgets and faults: a message is merged, refused or reported exactly when this source's message with this id was known at the start or put on record by an earlier input of the same source; a new one within limit and budgets is imported when nothing fails |
| PullIdentity.SourcesAreSeparate | src/channels/files.rs:484-505 | two sources that use one external id both get their message imported |
| PullIdentity.FirstBytesBind | src/channels/files.rs:488-504 | within one pull a message stays bound to the bytes that landed first: the same bytes merge, others are a conflict |
| PullIdentity.KnownIsCompared | src/channels/files.rs:488-504 | a message on record merges exactly with its own source and bytes, and evidence over six times the limit and 4096 bytes is reported |
| PullIdentity.RecordIsComplete | src/channels/files.rs:524-534 | what a pull puts on record decodes to the source, the word inbound, the time and the input's bytes, and is still there at its end |
| PullAgreement.DryRunAgrees | src/channels/files.rs:519-523 | without write failures a dry and a real run decide every input alike if and only if no accepted identity recurs, and then leave the same budgets |
| PullAgreement.RepeatedInputDisagrees | src/channels/files.rs:488-523 | two files with equal content: the dry run accepts both, the real run imports one and merges the other, and the budgets differ |
| PullAgreement.DistinctInputsAgree | src/channels/files.rs:519-523 | in particular for pairwise distinct identities |
| PullRun.ListInbox | src/channels/files.rs:443-464 | a listing is accepted exactly when it can be enumerated and its JSON files stay within the limit, and yields all of them; otherwise the limit is reported exactly when it is passed before an unreadable entry |
| PullRun.InputsAre | src/channels/files.rs:443-476 | the inputs of a source are the JSON files of its inbox, all of them, in the order of their paths, under the source's name and limit |
| PullRun.ListingOrderIsInvisible | src/channels/files.rs:472-473 | the order in which the file system enumerates an inbox has no influence on what is processed |
| PullRun.EveryInputIsAccountedFor | src/channels/files.rs:473-547 | every input is in exactly one of merged, skipped, imported, dry-run accepted and warned |
| PullRun.ListsAreExact | src/channels/files.rs:515-547 | the skipped, imported and warned lists name their inputs in the order of processing, each with what was decided for it |
| PullRun.Puller.Decide | src/channels/files.rs:475-545 | one pass through the per-input code makes the specified decision and leaves the specified evidence and budgets |
| PullRun.Puller.PullSource | src/channels/files.rs:434-547 | a source's own problem is one warning and leaves everything else alone; otherwise its inputs are processed once each, in sorted order |
| PullRun.Puller.Pull | src/channels/files.rs:419-558 | the report's lists, warnings, counts and byte totals are exactly those of the decisions for all inputs of all sources, by name, and of the sources that were not pulled |
| Sorting.LeqIs | src/channels/files.rs:472 | the order is: a prefix first, else the smaller code point at the first difference |
| Sorting.SortByIs | src/channels/files.rs:472 | sorting by key permutes and orders |
| Sorting.SortIgnoresOrder | src/plan_id.rs:66-70 | with distinct keys the sorted list does not depend on the order of the input |
| ChannelPaths.NormalizeIsIdempotent | src/channels/files.rs:152-170 | normalizing a normal form changes nothing |
| ChannelPaths.SameFormSamePlace | src/channels/files.rs:152-170 | two paths have one normal form if and only if they lead to the same place from every directory of a link-free tree |
| ChannelPaths.AbsoluteSamePlace | src/channels/files.rs:152-170 | for absolute paths one starting directory decides |
| ChannelPaths.PathConflicts | src/channels/files.rs:71-132 | a source is reported if and only if one of its paths is the root or under a managed directory, its inbox is another's inbox, its outbox is some inbox, or its inbox is some outbox; and with the first reason the comparison comes across, which is true |
| ChannelPaths.ForbiddenIsReserved | src/channels/files.rs:86-106 | for absolute paths the test on normal forms is the test whether the directory is the root or at or below a managed one |
| ChannelPaths.ConflictIsOverlap | src/channels/files.rs:71-132 | in a tree with links, for a `resolve` that spells out where normalized paths lead: a source is reported if and only if the directories it leads to overlap with the root, a managed directory or another channel |
| ChannelPaths.AcceptedChannelsAreSeparate | src/channels/files.rs:71-132 | in a link-free tree a source is accepted if and only if its directories are neither the workspace root nor inside a managed directory, its inbox is no other inbox and no outbox, and its outbox no inbox |
| ChannelPaths.LexicalConflictIsEverywhere | src/channels/files.rs:57-64 | the check without a workspace refuses a source if and only if its paths overlap in the same way in every workspace without links |
| ChannelPaths.LexicalConflictsAreReal | src/channels/files.rs:57-64 | so what it refuses is refused in any absolute workspace |
| ChannelPaths.ManagedIsForbidden | src/channels/files.rs:137-150 | each of the twelve directories that afmail manages is forbidden, with everything below it |
| CopyUid.ExpandUidSet | src/imap_client.rs:62-84 | the expansion is the meaning of the set, refused exactly for a reversed range or more than 4096 uids |
| CopyUid.Receipt.TargetForIs | src/imap_client.rs:43-60 | a receipt answers for a uid if and only if its sets have equal length and name the uid once, with the uid at the same place |
| CopyUid.RangesMapPairwise | src/imap_client.rs:43-84 | a range a:b answered by c:d of the same length maps a+k to c+k |
| CopyUid.RangeByUids | src/imap_client.rs:43-84 | a range a:a+1 answered by two single uids maps its first uid to the first and its second to the second |
| CopyUid.ParseCopyUidReceipt | src/imap_client.rs:86-112 | the first COPYUID of a complete response decides, on whichever line it stands; a response without one, or one on which the parser fails or stands still before it, gives none |
| MailStore.FallbackIsMove | src/imap_client.rs:770-793 | COPY, STORE \Deleted, UID EXPUNGE leaves the same store as MOVE, whatever else is flagged deleted |
| MailStore.AddFlagsAdds | src/imap_client.rs:589-609 | setting flags adds them to the one message, and changes nothing else |
| MailStore.CopyConserves | src/imap_client.rs:770-793 | after the copy and after the flag the message still exists and nothing else changed |
| MailStore.MoveLands | src/imap_client.rs:753-768 | after MOVE the message is gone from the source and is the target's newest, with content and flags |
| ImapMove.Session.UidMoveWithReceipt | src/imap_client.rs:753-768 | MOVE happened or did not; a rejected one changed nothing; success means moved, and a conforming receipt names the new uid and is passed on; a refused command is reported as rejected |
| ImapMove.Session.UidCopyDeleteExpunge | src/imap_client.rs:770-809 | after every command, refused or lost, the message is in source or target; an error marked as rejected made no copy, and a refused copy is so marked; success equals MOVE; a receipt is passed on |
| ImapMove.Session.FindUidByMessageId | src/imap_client.rs:834-891 | with a complete and sound search a location is the only hit, a missing uid means no hit, an ambiguous one at least two; on a healthy server one hit is always given, none and several always reported |
| ImapMove.Prepare | src/imap_client.rs:576-588 | the UIDVALIDITY check and the capability checks come before any change; they pass exactly when the uid is current and there is a way to move, and their errors say that nothing was started |
| ImapMove.SetFlags | src/imap_client.rs:589-609 | marking seen must succeed, the keyword may fail; at every command the message is conserved and only requested flags are added |
| ImapMove.Locate | src/imap_client.rs:619-667 | a receipt that answers for the uid gives exactly its location, without a search; otherwise, given a Message-ID, a unique hit of the search is the location and no or several hits are an error, after a move the one with the effect completed; success with a Message-ID always has a location |
| ImapMove.Pinpoint | src/imap_client.rs:619-667 | after the move a conforming receipt or a unique hit is returned as the location, none or several hits are the error with the effect completed; a returned location is the moved message itself, with the mailbox's UIDVALIDITY |
| ImapMove.MoveAndPlace | src/imap_client.rs:589-676 | everything after the preparation: conservation at every command, both effects on success, what each error promises, and the location, from the server's receipt and search |
| ImapMove.UidMarkAndMove | src/imap_client.rs:567-676 | the whole call: after every command the message exists and nothing else changed, nothing changes before the UIDVALIDITY and a way to move are sure, with MOVE the message is never in both folders; the same final store by either path; what each error promises; when success is certain; that a location is returned whenever the server's receipt or a unique hit gives one, none or several hits being the error with the effect completed; and that a returned location is the moved message itself |
| ImapMove.FlagAndMove | src/imap_client.rs:589-618 | flags then move: conservation at every command, both effects on success, and a conforming receipt that is about this move |
| ImapMove.LocationIsTrue | src/imap_client.rs:619-667 | a location from a conforming receipt, or from a complete search for a Message-ID the message carries, is the message's own |
| ImapMove.UniqueHitIsMessage | src/imap_client.rs:834-891 | a unique hit of a complete and sound search is the message if and only if the message carries the Message-ID |
| ImapMove.UniqueHitIsAnother | src/imap_client.rs:834-891 | a store and a conforming search in which the unique hit after a move is another message than the moved one |
| DraftContent.AfmailMarkersAreValid | src/draft_content.rs:4-7 | the four markers are different non-empty lines, which is all the theory needs |
| DraftContent.FindUniqueMarker | src/draft_content.rs:165-188 | one pass finds the only line that reads the marker, or reports a second one, or none |
| DraftContent.UniqueMarkerMeans | src/draft_content.rs:165-188 | what a marker search result means in terms of all lines of the text |
| DraftContent.ParseDraftContent | src/draft_content.rs:96-122 | the parser gives the draft or the first error in the source's order |
| DraftContent.DraftIsItsMarks | src/draft_content.rs:96-122 | a body parses as a draft if and only if its four marker searches found those lines in that order |
| DraftContent.ErrorIs | src/draft_content.rs:96-122 | a body has an error if and only if its marker searches say so: the reported one is true, and the first in the order of the checks |
| DraftContent.ComposeHasNoMarker | src/draft_content.rs:96-122 | the compose section of a draft contains no marker line |
| DraftLens.ReplaceAuthoredText | src/draft_content.rs:124-144 | everything before and after the compose section is kept around the trimmed text and the start marker's line ending |
| DraftLens.PutThenGet | src/draft_content.rs:27-35 | after a replacement the body parses, the authored range is exactly the trimmed text, and every character outside the compose section is unchanged |
| DraftLens.PutThenPut | src/draft_content.rs:124-144 | a second replacement gives what replacing the original gives |
| DraftLens.GetThenPut | src/draft_content.rs:124-144 | putting back what was read is the identity if and only if the section has no break in front and exactly one line ending, the marker's, at its end |
| DraftLens.ReplacementParses | src/draft_content.rs:124-144 | a replaced body parses if and only if the trimmed text has no marker line |
| DraftExamples.MarkerTextDoesNotParse | src/draft_content.rs:124-144 | writing a quote end marker into an empty draft leaves a body that does not parse |
| DraftExamples.EmptySectionGrows | src/draft_content.rs:124-144 | putting back nothing into an empty section changes the body |
| DraftLens.ReplacedReads | src/draft_content.rs:124-144 | a replaced body reads: everything up to the compose section, the trimmed text, a carriage return exactly if that first part ends in one and a line feed, a line feed, and everything after the section |
| DraftLens.CrLfStays | src/draft_content.rs:190-197 | if every line feed of body and text follows a carriage return, so does every one of the result |
| DraftLens.NoCrComesIn | src/draft_content.rs:190-197 | a body and a text without carriage returns give a result without any |
| DraftLens.EndingKept | src/draft_content.rs:190-197 | the line ending used depends only on the text up to the end of the start marker's line |
| DraftOutbound.RemoveSchemaMarkerLines | src/draft_content.rs:199-209 | the loop keeps exactly the lines that are not schema markers, with their breaks |
| DraftOutbound.RemovalIs | src/draft_content.rs:199-209 | text without a compose end, quote start or quote end line stays down to the last character, and such a line goes with its ending |
| DraftOutbound.OutboundBody | src/draft_content.rs:146-153 | what leaves is everything from the compose section on without marker lines, trimmed of line breaks |
| DraftOutbound.OutboundOfReplaced | src/draft_content.rs:124-153 | the outbound body of a replaced draft is the trimmed concatenation of text, line ending and the suffix without marker lines |
| DraftOutbound.NoMarkerLeaves | src/draft_content.rs:146-153 | for any draft in which carriage returns occur only before line feeds, no line of the outbound body is any of the four markers |
| DraftOutbound.NoMarkerLeavesReplaced | src/draft_content.rs:124-153 | and so after any replacement with such a text |
| DraftLeaks.MarkerLeavesIff | src/draft_content.rs:146-153 | for any draft, a line of the outbound body is a marker if and only if the first or the last kept line that is not blank reads as that marker without the breaks around the kept text |
| DraftExamples.MarkerLeaves | src/draft_content.rs:146-153 | a draft whose last line is a quote end marker and two carriage returns sends exactly that marker |
| AuthoredText.StripHtmlComments | src/draft_content.rs:234-258 | the inner loop computes the whole-text specification of one line and the comment state it leaves |
| AuthoredText.StripSplits | src/draft_content.rs:226-258 | no comment delimiter spans a line break, so scanning parts in turn is scanning the whole |
| AuthoredText.CommentIsInvisible | src/draft_content.rs:234-258 | text before a comment delimiter is visible, a comment up to its closing delimiter is not, what follows is scanned on, and a comment that is not closed hides the rest |
| AuthoredText.ContainsAuthoredText | src/draft_content.rs:226-232 | there is authored text if and only if the compose section without its comments has a visible character |
| StatusReader.SplitIs | src/imap_diagnostics.rs:72-91 | the specification's split into lines loses nothing and breaks exactly at line feeds |
| StatusReader.KeptIsUnique | src/imap_diagnostics.rs:92-110 | the kept reply is determined: the first tagged rejection, else the last untagged one, over lines within the limit |
| StatusReader.LimitDecides | src/imap_diagnostics.rs:72-110 | the first tagged rejection is kept if and only if its line has at most 16384 bytes |
| StatusReader.OneMoreByte | src/imap_diagnostics.rs:72-110 | buffering one byte keeps the state equal to the specification of everything seen |
| StatusReader.AppendDiagnostics.Observe | src/imap_diagnostics.rs:61-113 | the buffer stays within the limit, the state is the specification's after any chunk, and bytes read while inactive have no effect |
| StatusReader.AppendDiagnostics.Enrich | src/imap_diagnostics.rs:30-48 | the error is unchanged when nothing was kept, else carries the kept reply, marked as rejected if it was tagged or already so marked |
| StatusReader.FragmentationIsInvisible | src/imap_diagnostics.rs:61-113 | two observers that saw the same bytes are in the same state, however the reads were split |
| StatusReader.DrainObserved | src/imap_diagnostics.rs:18-113 | from a clear on, any sequence of reads leaves the reply that the specification keeps |
| BlockBuilder.SafeLinkTargetIs | src/body_markdown.rs:187-192 | a link target has no surrounding white space and one of three schemes, and such a target is kept as it is |
| BlockBuilder.GoodBlocksMean | src/body_markdown.rs:187-286 | what the law of blocks says run by run and block by block |
| BlockBuilder.Builder.PushText | src/body_markdown.rs:254-286 | text lands in the open block, or in a new paragraph or quote, in the style open at that point |
| BlockBuilder.Builder.FinishLink | src/body_markdown.rs:210-230 | the last character in the open block that leads to the finished target, and no other, is sealed with the target's host and the comparison with the sender |
| BlockBuilder.Builder.EndLink | src/body_markdown.rs:356-361 | the end of the outermost link, and only that, judges the link |
| BlockBuilder.Builder.Handle | src/body_markdown.rs:303-381 | every event changes what is open, and the page, exactly as a reader of the events would, link judgements included |
| BlockBuilder.MarkdownBlocks | src/body_markdown.rs:291-384 | for any events the blocks show, block by block, exactly the page the events describe: every character with style, block kind, marker and, at the end of a link, host and comparison with the sender; runs are non-empty, neighbours differ in style, only rules are empty, links are safe |
| BlockLaws.TextIsConserved | src/body_markdown.rs:254-384 | the characters of all blocks are the texts of all events, in order |
| BlockLaws.TextOfEvents | src/body_markdown.rs:336-380 | the text of breaks, table cells, task markers, raw HTML and code |
| BlockLaws.MarksAreOpen | src/body_markdown.rs:303-355 | text is emphasized, strong or quoted if and only if in some last stretch of the events more of these start than end, for any events, unmatched ends included |
| BlockLaws.HrefIsOutermost | src/body_markdown.rs:325-361 | text leads to the safe target of the outermost open link, whatever is started inside it, and nowhere outside links |
| BlockLaws.SafeTargets | src/body_markdown.rs:187-192 | a link is kept if and only if its trimmed target starts with https://, http:// or mailto: in any case |
| BlockLaws.LinkIsJudged | src/body_markdown.rs:210-230 | wherever a link with text starts outside other links, it has the host of its own target and the comparison with the sender on its last character when it ends |
| BlockLaws.ItemShowsNumber | src/body_markdown.rs:308-322 | the next item of a list shows the start number plus the items of that list so far, whatever lists are nested in between, or a bullet |
| BlockLaws.DecimalIs | src/body_markdown.rs:313-318 | a number is written in decimal digits without leading zeros |
| BlockLaws.ElementsBecomeBlocks | src/body_markdown.rs:301-349 | at any point of the events, a heading, code block or paragraph with text becomes one more block of its kind, a paragraph inside quotes a quote |
| BlockLaws.LooseItemLosesMarker | src/body_markdown.rs:232-322 | a list item that starts with a paragraph shows as that paragraph, without its marker |
| Authentication.SplitTopLevelSemicolons | src/mail.rs:421-443 | the loop gives the pieces between semicolons outside comments, without a blank last one |
| Authentication.StripComments | src/mail.rs:447-460 | the loop gives the text outside and the text inside comments |
| Authentication.ScannersAgree | src/mail.rs:421-460 | stripped one by one the pieces contain no semicolon, joined by semicolons they are the stripped header, and their comments are the header's |
| Authentication.SegmentsArePieces | src/mail.rs:439-442 | at most a blank piece at the end is dropped |
| PrintedResults.ReadsWhatIsPrinted | src/mail.rs:462-516 | a segment `method=result (p=policy) key=value` reads as that mechanism, result, the policy for dmarc only, and a domain only from a property that names one |
| PrintedResults.DomainOfAddress | src/mail.rs:361-369 | the domain of an address is what follows its last at sign, bare or in angle brackets, with or without a dot at the end |
| PrintedResults.PolicyOfComment | src/mail.rs:549-560 | the policy of a comment is the word behind p=, up to a semicolon or white space |
| PrintedResults.CommentIsTakenOut | src/mail.rs:447-460 | a comment at any depth is no part of the text around it |
| PrintedResults.OnlyPassPasses | src/mail.rs:528-540 | nothing but the word pass, in any case and trimmed, is a pass |
| AuthenticationResults.VerdictExtends | src/mail.rs:543-547 | one more segment keeps a verdict Pass if any segment passes, else the first one seen |
| AuthenticationResults.Accumulator.ApplySegment | src/mail.rs:462-516 | a segment contributes its finding, if it has one, and only a passing one a domain |
| AuthenticationResults.ParseAuthentication | src/mail.rs:393-417 | over all headers: verdicts, first policy, the authenticated domain from passing segments with dmarc before dkim before spf, and the alignment |
| AuthenticationResults.AuthenticatedDomainPassed | src/mail.rs:489-515 | an authenticated domain comes from a segment that passed, and its mechanism's verdict is Pass |
| AuthenticationResults.SuffixIsLastTwo | src/mail.rs:371-382 | of a domain the last two labels count, whatever is in front of them |
| AuthenticationResults.SubdomainsAlign | src/mail.rs:371-382 | a domain of at least two labels is aligned with its subdomains at any depth |
| PlanId.CanonicalizeJson | src/plan_id.rs:62-76 | sorting the entries in place and filling a map gives the canonical form |
| PlanId.CanonDecides | src/plan_id.rs:62-76 | two values with unique keys have one canonical form if and only if they are equal up to the order of object keys at every depth |
| PlanId.CanonIsSame | src/plan_id.rs:62-76 | a canonical form is itself valid and equal to the value up to the order of keys |
| PlanId.CanonIsSorted | src/plan_id.rs:62-76 | the keys of a canonical object ascend by code points, and its entries are the value's with canonical values |
| PlanId.CanonIsIdempotent | src/plan_id.rs:62-76 | canonicalizing twice is canonicalizing once |
| PlanId.PlanIdsDecide | src/plan_id.rs:15-40 | over any digest of fixed length, two plan ids are equal if and only if namespace, workspace and payload agree up to the order of keys, or the digests of two different canonical values of one namespace collide |
| Frontmatter.SplitFrontmatter | src/markdown.rs:15-41 | the loop gives the lines up to the first fence after the opening line, or the error |
| Frontmatter.BodyIsSuffix | src/markdown.rs:24-34 | the body of any accepted input is the exact text after the first fence line that follows the opening fence |
| Frontmatter.SplitIsLossless | src/markdown.rs:15-41 | of any accepted document only the line ends are lost: opening fence, frontmatter lines and closing fence, each with an end of carriage returns and a line feed, and the body reassemble it |
| Frontmatter.FenceIs | src/markdown.rs:15-34 | a fence line is three dashes followed by break characters only |
| Frontmatter.KeptBodyIs | src/markdown.rs:132-141 | the kept body starts at the first character that is not white space and ends in a line feed, one being added if needed |
| Frontmatter.OneLineDocument | src/markdown.rs:15-41 | a document of one frontmatter line, character by character, written from untidy parts and read |
| Frontmatter.SplitOfRender | src/markdown.rs:132-141 | splitting a rendered document gives the trimmed frontmatter and the kept body if and only if no frontmatter line is a fence or ends in a carriage return |
| Frontmatter.FenceIsLost | src/markdown.rs:132-141 | frontmatter that is a fence line does not survive rendering and splitting |
| Frontmatter.RenderIsStable | src/markdown.rs:132-141 | rendering what a rendered document keeps gives the same document |
| Frontmatter.RenderOfSplit | src/markdown.rs:15-41 | any accepted document can be rendered and split again without further change to its frontmatter lines or its kept body |

## Left out

- Positions in drafts, frontmatter and headers are character positions; the code's are byte offsets into UTF-8.
- Power loss: a crash stops an attempt between two calls, but what reached the disk stays; directory flushes are calls that succeed or fail.
- Symbolic links, non-regular files and inode races in `read_regular`: one failure outcome; an inode that changed between stat and open is modelled.
- `resolve_existing` is a parameter of the path check; Windows path prefixes and drive-relative paths are not modelled.
- Evidence is published by one process at a time inside a pull; interleaving of pulls with publish attempts is not modelled.
- PullDecisions.LandedStaysMerged: requires readable evidence and a limit that was not lowered in the later pull, because an unreadable or too large file is a warning in the code.
- Evidence.DecodeEncode: decodes fields in the order in which they are written and escapes of code points below 128, because that is all the encoder writes; a general JSON reader is more liberal.
- Native message JSON, message-id digests, timestamps and the workspace store (`materialize`, `persist_message_metadata`, `write_message_artifacts`, `render_refresh`) are parameters or steps that succeed or fail.
- The test that a path's extension is `json` is a flag of a directory entry.
- The response parser of `parse_copyuid_receipt` is a parameter.
- Interference by other mail clients during a move, and the quoting of mailbox names and search strings.
- `keyword_error` texts, hints and other details of errors; the three promises that details carry are modelled.
- APPEND with its reply observer is modelled up to the observer; `append_message_session` and drafts saved over IMAP are not.
- The reply parser `imap_proto` is a classifier of complete lines with a rendering.
- Markdown parsing, HTML to Markdown, `tidy_markdown`, host extraction and registrable domains of links: the host of a target is a parameter.
- 64-bit overflow of list numbers and of nesting depths.
- MIME parsing, `first_address_domain`, mailing-list headers.
- `edit_frontmatter`, `read_doc` and YAML itself; `validate_namespace` and the digest of plan ids.
- Sockets, TLS, login and timeouts; commands, tables and templates: no state that the properties above depend on.
