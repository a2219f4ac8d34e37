# Verified models of MsgRiver

MsgRiver is a local message-delivery service: requests enter a durable queue, a single-threaded loop
hands them to a provider, and a set of checkers keeps the specification documents consistent.  This
project models its hardest parts in Dafny and proves what they are for.  `dafny verify dfyconfig.toml`
checks everything.

| part | modules | source |
|---|---|---|
| durable queue, serve loop | `Queue`, `QueueInvariant`, `QueueRuns`, `QueueColumns`, `QueueOrder`, `QueueAdmission`, `Store` | `crates/msgriver-store/src/lib.rs`, `crates/msgriver/src/main.rs` |
| emphasis delimiters | `Delimiters`, `Pairings`, `Emphasis` | `scripts/check_specs.py` |
| code spans, substring search | `CodeSpans`, `Kmp` | `scripts/check_specs.py`, `scripts/spec_structure.py` |
| section and unit parser | `SpecLines`, `SpecBlocks`, `SpecTexts`, `SpecHeadings`, `SpecUnits`, `SpecStack`, `SpecSlices`, `SpecMachine`, `SpecPositions`, `SpecKin`, `SpecParser` | `scripts/spec_structure.py` |
| canonical bytes, digests | `Canon`, `CanonOrder`, `Mac`, `Sha256`, `Sha256Constants` | `crates/msgriver-core/src/canon.rs` |
| retry arithmetic | `Calendar`, `RetryAfter`, `Retry` | `crates/msgriver-connectors/src/retry_after.rs`, `crates/msgriver-core/src/retry.rs`, `crates/msgriver/src/jitter_source.rs` |
| serial allocator | `Incarnation`, `Hex` | `crates/msgriver-core/src/incarnation.rs`, `crates/msgriver-core/src/generation.rs` |
| JSON boundary and client text | `JsonScan`, `JsonText`, `JsonTree` | `crates/msgriver-protocol/src/json.rs`, `crates/msgriver-client/src/lib.rs` |
| path segments | `Base64Url` | `crates/msgriver-protocol/src/path.rs` |
| shared | `Wrappers`, `Bytes`, `Text` | |

## How the source is represented

- Code that updates things step by step is a method with loops, or a class with `modifies` clauses:
  the store (`Store.MessageStore`), the delimiter objects (`Delimiters.MarkdownDelimiter`) and the
  document parser (`SpecParser.Parser`) are classes.  Each method is proved against functions on
  values; what must hold over whole runs is proved about those functions.
- The queue tables carry the constraints of `migration_v3_m2_delivery.sql`, `migration_v4_driver_queue.sql`
  and `migration_v5_whatsapp_inbound.sql`: a unique key, a primary key of 64 characters, attempts from 0 to 5,
  a topic of 1 to 64 characters, and the agreement of state, next attempt, acknowledgement and error.  A
  statement that breaks one fails and the transaction changes nothing.
- A transaction is one function from database to database (`Queue.Apply`); a run is any list of them, with any
  clock readings.  A crash loses no committed transaction and completes no other, so a run with crashes is
  again a run.  The digest behind message ids is any function to 64 hexadecimal digits; `Store` uses SHA-256.
- The parser is proved in two steps.  A grammar (`SpecBlocks`) gives the events of a document as a function of its
  lines: open or close a section, start or end a definition, add a block, a table or a leaf.  A machine
  (`SpecMachine`) carries the events out.  Every parser method adds exactly the events the grammar gives for its
  lines, and its fields equal the machine's after them; the invariants are proved of every run of the machine.
- Text is a sequence of Unicode scalar values with its UTF-8 length (`Text`); bytes are integers below 256, and
  shifts and masks on them are written as products, quotients and remainders.  SHA-256 words are 32-bit vectors.
- Regular expressions, Unicode categories, the HTML scanner, the clause splitter, block boundaries, clocks,
  provider answers and the keyed-MAC provider are parameters, so results hold for all of them.

## Where the code and its documentation differ

The model follows the code.  Each difference is a theorem.

- A requeue keeps `attempts` (`crates/msgriver-store/src/lib.rs:1003-1041`).  A message that failed by using its fifth
  attempt is queued again, can never be claimed (the claim would write 6), and blocks everything behind it; the
  refused claim ends the service.  Over every run that happens exactly when some requeue meets a message that has used
  its attempts (`QueueOrder.SpentExactly`); without such a requeue no claim is refused and nothing starves
  (`QueueOrder.SafeRunsNeverRefuse`, `QueueOrder.NoStarvation`), after one all but 5k of the later claims are refused
  (`QueueOrder.SpendingWedges`).  `QueueOrder.RequeueCanWedge` is a concrete run.
- `m4_submit_inbound` accepts a destination of up to 256 bytes but stores it in the topic column too, which holds 64
  characters, so a longer one is refused (`QueueInvariant.NewRow4Ok`, `QueueAdmission.WideDestination`).  The webhook
  handler never passes one (`crates/msgriver/src/main.rs:897-915`): its own destinations always fit
  (`QueueAdmission.WebhookExact`).
- Equal canonical bytes should be equal meanings, defaults expanded (`specs/architecture.md:415-417`).  Over all pairs of
  accepted requests that holds but for one family (`Canon.MeaningExact`): both use the older layout and agree up to
  their options, and either one omits its options where the other spells the default out, or the two rank one set of
  option fields differently, because that layout sorts the priority into the tags.  `Canon.DefaultIsLost` and
  `Canon.PriorityIsLost` are concrete pairs.  No request that spells the default out ever shares the bytes of one that
  omits it, in either layout (`Canon.OmissionShows`).
- Length prefixes of 32 bits wrap: from 2^32 bytes on two different requests can share their bytes
  (`Canon.OversizeCollision`).
- The raw-key lookup digest separates principal and key by a NUL: an input belongs to one pair alone exactly when
  neither principal nor key holds a NUL (`Mac.LookupExact`); among principals without one it separates all pairs
  (`Mac.LookupInjective`).
- The document parser lets a repeated definition identifier through: `SpecBlocks.DocumentDefinesTwice` is a document and
  `SpecParser.RepeatedDefinition` the fault of its units.  Of the structural checks that follow a parse only the one for
  definition identifiers can refuse, and it does so exactly on a repetition (`SpecParser.ParseSpecStructure`).

## Model

| member | source | states |
|---|---|---|
| `Delimiters.MatchDelimiters` | scripts/check_specs.py:2755-2806 | for every delimiter list, the search with back-jumps, run header and six lower bounds per key leaves every delimiter object matched as the plain backward scan would |
| `Delimiters.MatchCloser` | scripts/check_specs.py:2759-2806 | one pass of the loop is one step of the plain scan and keeps jump table and lower bounds sound |
| `Delimiters.SearchAsCloser` | scripts/check_specs.py:2772-2806 | a closer pairs with its nearest viable opener or raises the bound of its class, never past a viable opener |
| `Delimiters.FindOpener` | scripts/check_specs.py:2775-2804 | the jumping search finds the nearest viable opener above the bound, or there is none at all |
| `Delimiters.Pairup` | scripts/check_specs.py:2798-2803 | the three field updates of a match, and no other object changes |
| `Delimiters.Nearest` | scripts/check_specs.py:2777-2790 | the reference search: the result is viable and nothing between it and the limit is |
| `Delimiters.CloserChoice` | scripts/check_specs.py:2759-2806 | a closer is paired exactly with the nearest delimiter before its run header that has its key, can open, is unmatched, lies inside no earlier pair and passes the rule of three |
| `Pairings.PairedExactly` | scripts/check_specs.py:2759-2806 | for every list: an opener and a closer are paired exactly when the opener is the nearest delimiter before the closer's run (one key, consecutive tokens, broken by a matched closer) that fits it: same key, may open, unclaimed and unenclosed, and by the rule of three either neither can be both, or the lengths do not sum to a multiple of three, or both are multiples |
| `Pairings.NoPairInRun` | scripts/check_specs.py:2762-2767 | no pair joins two markers of one run: between its ends some neighbours differ in key or are not consecutive tokens |
| `Delimiters.PairedIsWellNested` | scripts/check_specs.py:2807-2823 | for every list: each delimiter in at most one pair, opener before closer with the same key, rule of three obeyed, no two pairs crossing |
| `Delimiters.AdvanceMatched` | scripts/check_specs.py:2790-2803 | after a match the jump table still only jumps over delimiters that can never open again and never into a pair |
| `Delimiters.RaiseBound` | scripts/check_specs.py:2805-2806 | a raised lower bound hides no opener from any later closer of its class |
| `Emphasis.ScanDelimiters` | scripts/check_specs.py:2681-2753 | tokens in order and disjoint, one per asterisk or underscore of a maximal free run and one per run of one or two tildes; an uncovered marker is in a longer tilde run |
| `Emphasis.Flanks` | scripts/check_specs.py:2694-2722 | which markers can open and close: the flanking rules, and for underscores alone the punctuation rule |
| `Emphasis.CollectSyntax` | scripts/check_specs.py:2807-2823 | a position is syntax exactly when a marker of a pair covers it; exactly the pairs' run extents are wrappers, each once, in the order of their first openers |
| `Emphasis.MatchedMarkdownSyntax` | scripts/check_specs.py:2667-2823 | the whole function: syntax and wrappers, in order, are those of the plain scan over the tokens of the text |
| `CodeSpans.EscapeFlags` | scripts/check_specs.py:1639-1648 | a character is escaped exactly after an odd run of backslashes |
| `CodeSpans.ScanTokens` | scripts/check_specs.py:1663-1683 | one token per maximal eligible backtick run, numbered with its block, opening after an escape |
| `CodeSpans.PairEqualWidth` | scripts/check_specs.py:1685-1703 | the reverse width table and the forward loop give the greedy left-to-right pairing with the first closer of exactly the opening width in the block |
| `CodeSpans.NoncrossingCodeSpans` | scripts/check_specs.py:1651-1703 | scanning and pairing together; the matches are increasing and disjoint |
| `CodeSpans.BacktickRuns` | scripts/spec_structure.py:465-484 | exactly the maximal runs of eligible backticks, in order |
| `CodeSpans.PairAtLeastAsWide` | scripts/spec_structure.py:523-546 | the same greedy pairing with the first closer at least as wide; the number of table updates |
| `CodeSpans.InlineCodeSpans` | scripts/spec_structure.py:487-546 | the whole function, with at most as many table updates as the text has characters |
| `CodeSpans.TableCodeSpanEnds` | scripts/spec_structure.py:549-574 | every unescaped suffix of every run maps to the end of the nearest later run at least as wide, and nothing else is mapped |
| `CodeSpans.GreedyIsDisjoint` | scripts/check_specs.py:1692-1703 | greedy matches never overlap and come in order |
| `CodeSpans.GreedyIsComplete` | scripts/check_specs.py:1692-1703 | a token that could open is passed over only inside a span or for want of a closer |
| `CodeSpans.SpanStaysInBlock` | scripts/check_specs.py:1663-1703 | no block boundary lies between the two ends of a span |
| `Kmp.FailureTable` | scripts/check_specs.py:3033-3041 | every entry is the longest proper border of its prefix, within three comparisons a character |
| `Kmp.LinearContains` | scripts/check_specs.py:3029-3049 | true exactly when the needle is a contiguous substring; comparisons linear in both lengths |
| `Kmp.Feed` | scripts/check_specs.py:3043-3048 | one haystack character: the longest needle prefix ending there |
| `SpecLines.SplitLines` | scripts/spec_structure.py:1823-1835 | the lines, joined by newlines, spell the text but for a final newline; each is free of newlines and stands in the UTF-8 bytes where it says |
| `SpecParser.Parser.NextPosition` | scripts/spec_structure.py:2041-2043 | the counter of the scope being read grows by one and nothing else changes |
| `SpecParser.Parser.OpenHeading` | scripts/spec_structure.py:2118-2140 | refused exactly for an id met before or a depth that skips a level; else sections at its depth and below close and the new one lies directly under what stays open |
| `SpecParser.Parser.CloseSectionBefore` | scripts/spec_structure.py:2142-2146 | the innermost section gets the bytes from its heading to its last line of text |
| `SpecParser.Parser.LastNonBlankBefore` | scripts/spec_structure.py:2152-2158 | the end of the last line of text in the range |
| `SpecParser.Parser.MakeContainerBlock` | scripts/spec_structure.py:2547-2566 | one unit at the next position of its scope, or at the one already taken |
| `SpecParser.Parser.EmitClausesFor` | scripts/spec_structure.py:2568-2600 | one clause for every range that is not blank, numbered from 1 |
| `SpecParser.Parser.ConsumeRawHtmlBlock` | scripts/spec_structure.py:2226-2273 | fails exactly when an element stays open; else one paragraph block without clauses, from the content of its first line to the end of the line that closes the last element, or before a blank or dedented line |
| `SpecParser.Parser.ConsumeFence` | scripts/spec_structure.py:2275-2297 | one code block without clauses, up to the first closing fence or the end of the document |
| `SpecParser.Parser.ConsumeTable` | scripts/spec_structure.py:2299-2325 | one table up to the first line without a bar, and a row with its slice for every body line |
| `SpecParser.Parser.ConsumeBlockquote` | scripts/spec_structure.py:2327-2367 | over the quoted lines without their markers: a table with its rows where the second is a table rule, else one quote block |
| `SpecParser.Parser.ConsumeListItem` | scripts/spec_structure.py:2369-2400 | a definition where marker and text have its form, else one list item from after the marker to the last indented line, with its clauses |
| `SpecParser.Parser.ConsumeDefinition` | scripts/spec_structure.py:2423-2499 | a definition with this id: its first text as a list item unless blank, then the blocks indented below it, ended at its last line of text |
| `SpecParser.Parser.ConsumeParagraph` | scripts/spec_structure.py:2509-2543 | one text block with its clauses, never empty, up to the first line that ends a paragraph |
| `SpecParser.Parser.ParseBlocks` | scripts/spec_structure.py:2162-2206 | exactly the blocks that the grammar gives up to a heading, a dedented line or the end, or its error; it ends for every document |
| `SpecParser.Parser.Parse` | scripts/spec_structure.py:2082-2114 | exactly the events of the document or its first error; on success every section is closed |
| `SpecParser.ParseSpecStructure` | scripts/spec_structure.py:2768-2780 | the units are those of the document's events; they are refused exactly when a definition id is repeated; what is accepted is a tree with gapless positions, nearest owners, distinct section ids and nested section slices |
| `SpecParser.OnlyRepetitionFails` | scripts/spec_structure.py:2667-2703 | of the units of any run validation can refuse only a repeated definition id, and refuses exactly on a repetition |
| `SpecParser.RepeatedDefinition` | scripts/spec_structure.py:2695-2703 | a run that defines one id twice, and the fault validation finds in it |
| `SpecBlocks.DocumentDefinesTwice` | scripts/spec_structure.py:2423-2499 | a document of three lines whose events are that run |
| `SpecBlocks.FirstStopIsFirst` | scripts/spec_structure.py:2226-2543 | where a block ends: at the first line that stops it, and no earlier line does |
| `SpecTexts.TextExtent` | scripts/spec_structure.py:2509-2543 | a text runs from its line to the first line that is blank, dedented, a quote, a bullet, an ordered marker starting at one, a fence, an HTML start, a table of two lines or, outside definitions, heading-like, or to the end; it becomes one block over exactly those bytes |
| `SpecTexts.BlocksAreReached` | scripts/spec_structure.py:2509-2543 | a paragraph never reads past such a line |
| `SpecTexts.BulletsAreReached` | scripts/spec_structure.py:2522-2531 | so a bullet below a paragraph is never swallowed by it |
| `SpecTexts.DefinitionExtent` | scripts/spec_structure.py:2440-2499 | a definition's first text starts at the byte behind marker, prefix and blanks and runs to the first line that is blank, begins a block, is indented too little, or at column 0 begins a block or is heading-like |
| `SpecTexts.HeadingExact` | scripts/spec_structure.py:1900-1931 | a section heading is exactly two to six hashes, one blank and a title with an id |
| `SpecTexts.TitleExact` | scripts/spec_structure.py:1892-1931 | exactly the lines that begin with one to six hashes and a blank are headings of some kind; which are a title |
| `SpecBlocks.BlocksAreInert` | scripts/spec_structure.py:2162-2206 | no block, whatever its lines look like, opens or closes a section |
| `SpecHeadings.SectionsAreHeadings` | scripts/spec_structure.py:2082-2114 | for every document that reads: a section is opened exactly on each heading that reading comes to outside all blocks, in order, and every other heading lies inside a block |
| `SpecHeadings.OpenedAreHeadings` | scripts/spec_structure.py:2082-2114 | the same from any line on, with any sections open |
| `SpecUnits.ValidateStructure` | scripts/spec_structure.py:2645-2727 | reports the first structural fault in document order |
| `SpecUnits.OnlyDefinitionsFault` | scripts/spec_structure.py:2667-2703 | on such trees the checks for parents, paths, sections and clause parents never fire, and the definition check fires exactly on a repetition |
| `SpecUnits.PathsDistinct` | scripts/spec_structure.py:2676-2690 | no two units of a tree share a structural path |
| `SpecMachine.ReplayOk` | scripts/spec_structure.py:2058-2626 | every run keeps tree, counters, ids, nesting of slices and the definition being read |
| `SpecMachine.OpenDepths` | scripts/spec_structure.py:2118-2140 | at every moment of every run the open sections lie at depths 2, 3, .., one each |
| `SpecMachine.RunFacts` | scripts/spec_structure.py:2118-2140 | every section hangs on the last earlier section one level up, with only deeper ones between |
| `SpecKin.SectionsNest` | scripts/spec_structure.py:2142-2158 | of two closed sections the later one's slice lies in the earlier one's if it descends from it, else it comes after |
| `SpecMachine.SectionsLaminar` | scripts/spec_structure.py:2142-2158 | the slices of any two closed sections are nested or disjoint |
| `SpecPositions.ReplayDense` | scripts/spec_structure.py:2027-2043 | the children of every owner stand at positions 1, 2, 3, .. without a gap |
| `SpecSlices.CloseTop` | scripts/spec_structure.py:2142-2146 | closing a section keeps every pair of slices nested or disjoint |
| `Store.MessageStore.M2Submit` | crates/msgriver-store/src/lib.rs:608-644 | the transaction `Queue.Submit2`, or refusal without a connection |
| `Store.MessageStore.M3Submit` | crates/msgriver-store/src/lib.rs:647-689 | the transaction `Queue.Submit3` |
| `Store.MessageStore.M4SubmitInbound` | crates/msgriver-store/src/lib.rs:706-793 | the transaction `Queue.SubmitInbound`: message, receipt and rate event together or nothing |
| `Store.MessageStore.M2ClaimDue` | crates/msgriver-store/src/lib.rs:797-836 | the transaction `Queue.Claim` |
| `Store.MessageStore.M2MarkAccepted` | crates/msgriver-store/src/lib.rs:839-853 | the transaction `Queue.MarkAccepted` |
| `Store.MessageStore.M2MarkRetry` | crates/msgriver-store/src/lib.rs:856-895 | the transaction `Queue.MarkRetry`: failed for good on the fifth attempt |
| `Store.MessageStore.M2MarkFailed` | crates/msgriver-store/src/lib.rs:899-913 | the transaction `Queue.MarkFailed` |
| `Store.MessageStore.M2MarkAmbiguous` | crates/msgriver-store/src/lib.rs:917-931 | the transaction `Queue.MarkAmbiguous` |
| `Store.MessageStore.M2RecoverInterrupted` | crates/msgriver-store/src/lib.rs:935-944 | every message in flight becomes ambiguous, and their number is reported |
| `Store.MessageStore.M6RequeueFailed` | crates/msgriver-store/src/lib.rs:1003-1041 | the transaction `Queue.Requeue` |
| `Store.MessageStore.M6QueueSummary` | crates/msgriver-store/src/lib.rs:961-971 | the six counters, which sum to the number of rows |
| `Store.DigestToHex` | crates/msgriver-store/src/lib.rs:1142-1150 | lower-case hexadecimal, two digits a byte |
| `Store.MessageIdOf` | crates/msgriver-store/src/lib.rs:1114-1140 | the SHA-256 of the length-framed fields in hexadecimal |
| `Store.DispatchDue` | crates/msgriver/src/main.rs:1210-1255 | nothing on a refused claim or when nothing is due; else the claim and then the mark that belongs to the provider's outcome, unless the process dies between; success exactly when the mark is recorded, and then the row shows the outcome column by column and no other row changed |
| `Store.OutcomeColumns` | crates/msgriver/src/main.rs:1231-1254 | column by column, what each provider outcome leaves in the row: acknowledgement, retry a second later or failure at the fifth attempt, ambiguity, failure, each with its reason; every other row unchanged |
| `Store.UncertainIsFinal` | crates/msgriver/src/main.rs:1240-1244 | after an uncertain answer no later step of any run claims or requeues the message, and its row never changes again |
| `Store.RecordsUnless` | crates/msgriver/src/main.rs:1235-1255 | recording an outcome fails exactly for an invalid acknowledgement or a retry whose time overflows |
| `Store.Serve` | crates/msgriver/src/main.rs:124-176 | the whole life of the process is a run; at every head of the loop nothing is in flight, at the end at most one message |
| `QueueInvariant.ApplyKeeps` | crates/msgriver-store/src/lib.rs:608-1041 | every transaction keeps the row constraints, unique keys and the message behind each receipt |
| `QueueInvariant.RunKeeps` | crates/msgriver-store/src/lib.rs:608-1041 | so does every run, crashes included: next attempt exactly when queued or retrying, acknowledgement exactly when accepted, error exactly when failed or ambiguous |
| `QueueInvariant.NewRow2Ok` | crates/msgriver-store/src/lib.rs:636-641 | a valid first-generation submission meets every column constraint |
| `QueueInvariant.NewRow3Ok` | crates/msgriver-store/src/lib.rs:681-686 | a valid driver submission meets every column constraint |
| `QueueInvariant.NewRow4Ok` | crates/msgriver-store/src/lib.rs:762-777 | a callback's row fails a constraint exactly when its destination has more than 64 characters |
| `QueueRuns.StepMoves` | crates/msgriver-store/src/lib.rs:797-1041 | every step moves every message along an edge of its life cycle or not at all, keeps its content, and counts an attempt exactly when it claims it |
| `QueueRuns.AttemptsAreClaims` | crates/msgriver-store/src/lib.rs:797-836 | over every run attempts equal claims and stay within five, whatever is requeued |
| `QueueRuns.RunMoves` | crates/msgriver-store/src/lib.rs:839-971 | accepted and ambiguous are never left, content never changes |
| `QueueRuns.FreshRow` | crates/msgriver-store/src/lib.rs:608-793 | a new message is queued, unattempted and due at once |
| `QueueColumns.AdmittedColumns` | crates/msgriver-store/src/lib.rs:608-793 | each column of a new row by the kind of its submission, and the fields its id is the digest of |
| `QueueColumns.ClaimColumns` | crates/msgriver-store/src/lib.rs:797-838 | the claimed message is the oldest that is waiting and due, by first differing character of the id among those of one age; it alone changes and spends an attempt |
| `QueueColumns.RecoverColumns` | crates/msgriver-store/src/lib.rs:935-959 | recovery makes exactly the messages in flight ambiguous, with its fixed reason |
| `QueueColumns.RequeueColumns` | crates/msgriver-store/src/lib.rs:1003-1041 | a requeue changes one failed row: queued, due at once, attempts kept, error cleared |
| `QueueColumns.SettledForever` | crates/msgriver-store/src/lib.rs:797-1041 | an ambiguous or accepted row never changes again over any run, and is never claimed or requeued |
| `QueueOrder.ClaimExact` | crates/msgriver-store/src/lib.rs:797-836 | a claim takes the first due message by creation and id, finds nothing exactly when nothing is due, and fails exactly when that message has used its attempts |
| `QueueOrder.BoundedOvertaking` | crates/msgriver-store/src/lib.rs:797-836 | while a message is due at most 5k claims succeed on others, k counting the messages ahead of it |
| `QueueOrder.NoStarvation` | crates/msgriver-store/src/lib.rs:797-836 | provided no requeue met a message that had used its attempts, more than 5k claims have claimed the due message |
| `QueueOrder.AheadIsFixed` | crates/msgriver-store/src/lib.rs:797-836 | k does not grow while later admissions read later clocks |
| `QueueOrder.SpendsExactly` | crates/msgriver-store/src/lib.rs:1003-1041 | of all steps only a requeue of a message that failed with five attempts used makes a message due that no claim can take |
| `QueueOrder.SpentExactly` | crates/msgriver-store/src/lib.rs:1003-1041 | over every run such a message exists at the end exactly when some requeue met one that had used its attempts |
| `QueueOrder.SafeRunsNeverRefuse` | crates/msgriver-store/src/lib.rs:797-836 | without such a requeue no claim of the run is refused |
| `QueueOrder.SpendingWedges` | crates/msgriver-store/src/lib.rs:797-836 | after one such requeue, at the end of any run, all but 5k of the later claims are refused |
| `QueueOrder.SpentFirstRefusesAll` | crates/msgriver-store/src/lib.rs:797-836 | with only settled messages ahead of it, every later claim is refused |
| `QueueOrder.SpentForever` | crates/msgriver-store/src/lib.rs:815-836 | such a message stays as it is through every run |
| `QueueOrder.SpentBlocks` | crates/msgriver-store/src/lib.rs:797-836 | once due it bars every message behind it for good |
| `QueueOrder.RequeueCanWedge` | crates/msgriver-store/src/lib.rs:1003-1041 | a concrete run from the empty store that ends so |
| `QueueAdmission.IdempotentAdmission` | crates/msgriver-store/src/lib.rs:608-644 | under every later run the key owns that one row; the same request answers the same id, any other is refused, and neither changes anything |
| `QueueAdmission.IdempotentAdmission3` | crates/msgriver-store/src/lib.rs:647-689 | the same for driver submissions |
| `QueueAdmission.FramesDiffer` | crates/msgriver-store/src/lib.rs:1114-1140 | different keys give different id preimages, across both entry points |
| `QueueAdmission.RunKeepsIdsBound` | crates/msgriver-store/src/lib.rs:1114-1140 | over every run each id is the digest of its own row's framed fields |
| `QueueAdmission.RefusalIsCollision` | crates/msgriver-store/src/lib.rs:608-644 | a valid submission under a free key is refused only on a digest collision, which it exhibits |
| `QueueAdmission.Refusal3IsCollision` | crates/msgriver-store/src/lib.rs:647-689 | the same for driver submissions |
| `QueueAdmission.InboundExact` | crates/msgriver-store/src/lib.rs:720-793 | an enabled, unseen, unlimited callback is accepted exactly when its destination fits, its key is free and its id is free |
| `QueueAdmission.WebhookExact` | crates/msgriver/src/main.rs:897-915 | the destinations the webhook handler passes always fit, so only a taken key or id refuses |
| `QueueAdmission.WideDestination` | crates/msgriver-store/src/lib.rs:762-777 | a valid destination of 65 characters that is refused |
| `QueueAdmission.InboundRecords` | crates/msgriver-store/src/lib.rs:762-793 | acceptance adds exactly one message with key m4-id and exactly one receipt |
| `QueueAdmission.InboundOnce` | crates/msgriver-store/src/lib.rs:720-793 | under every later run it stays the only message of that key, and the callback is never accepted again |
| `QueueAdmission.RunKeepsRate` | crates/msgriver-store/src/lib.rs:746-791 | for every sender and all clock readings, backward ones too, no half-open window of 600000 ms holds more than four accepted notifications |
| `QueueAdmission.SummaryAddsUp` | crates/msgriver-store/src/lib.rs:961-971 | the six counters always sum to the number of rows |
| `QueueColumns.RateExact` | crates/msgriver-store/src/lib.rs:744-768 | a notification is rate limited exactly when four accepted ones of its sender are each less than ten minutes old |
| `QueueColumns.SummaryCounts` | crates/msgriver-store/src/lib.rs:961-971 | which counter counts which state |
| `QueueColumns.FieldLimits` | crates/msgriver-store/src/lib.rs:1074-1112 | keys, topics and phone numbers in characters: lengths and alphabets |
| `Canon.CanonicalRequestV1` | crates/msgriver-core/src/canon.rs:151-276 | the pushes of both layouts produce exactly the encoding of the normal form, for the accepted requests only |
| `Canon.CanonicalExact` | crates/msgriver-core/src/canon.rs:151-276 | for fields below 2^32 bytes, two accepted requests have the same bytes exactly when they have the same normal form; the two layouts never coincide |
| `Canon.TagsAreASet` | crates/msgriver-core/src/canon.rs:356-386 | order and repetition among the tags change nothing |
| `CanonOrder.OlderTagsInOrder` | crates/msgriver-core/src/canon.rs:215-276 | the older layout writes every option field once, each a proper prefix of the later ones or smaller at the first byte that differs |
| `CanonOrder.NewerTagsInOrder` | crates/msgriver-core/src/canon.rs:356-386 | the newer layout writes the priority, the number of different tags and the tags in the same byte order |
| `CanonOrder.TransitionTagsExact` | crates/msgriver-core/src/canon.rs:300-316 | the one admitted list of tags is admitted in every order and with any repetition, and no other |
| `CanonOrder.NewerBytes` | crates/msgriver-core/src/canon.rs:151-213 | byte by byte, what stands between the fields in the newer layout |
| `CanonOrder.OlderBytes` | crates/msgriver-core/src/canon.rs:215-276 | byte by byte, what stands between the fields in the older layout |
| `Canon.OlderOptionsExact` | crates/msgriver-core/src/canon.rs:215-276 | in the older layout two option lists give the same bytes exactly when they are the same set, priority included |
| `Canon.PriorityIsLost` | crates/msgriver-core/src/canon.rs:215-276 | a concrete pair of requests that differ in priority and share their bytes |
| `Canon.NewerOptionsExact` | crates/msgriver-core/src/canon.rs:356-386 | in the newer layout exactly the same priority and the same set of tags give the same bytes |
| `Canon.MeaningExact` | crates/msgriver-core/src/canon.rs:151-276 | over both layouts, accepted requests have the same bytes exactly when they have the same meaning (destination, optional title, text, priority with default, tag set, expiry, correlation), unless both use the older layout, agree up to their options, and one omits the default the other spells out or one set of fields is ranked in two ways |
| `Canon.NewerMeaning` | crates/msgriver-core/src/canon.rs:151-213 | in the newer layout the bytes are the meaning, defaults expanded |
| `Canon.OlderMeaning` | crates/msgriver-core/src/canon.rs:215-276 | in the older layout the bytes are destination, content, and either no options or the option fields as one set |
| `Canon.OmissionShows` | crates/msgriver-core/src/canon.rs:356-386 | a request that omits its options never shares its bytes with one that has some |
| `Canon.DefaultIsLost` | crates/msgriver-core/src/canon.rs:215-276 | a concrete pair with one meaning and different bytes: options omitted, and the default alone |
| `Canon.OversizeCollision` | crates/msgriver-core/src/canon.rs:407-416 | a family of requests with a title of 2^32 bytes and more that collide |
| `Sha256.Sha256` | crates/msgriver-core/src/canon.rs:462-532 | for every message, the digest of FIPS 180-4 section 6.2.2 |
| `Sha256.PadMessage` | crates/msgriver-core/src/canon.rs:467-474 | the padding of FIPS 180-4 section 5.1.1 |
| `Sha256.PaddedLength` | crates/msgriver-core/src/canon.rs:467-474 | padding is a whole number of 64-byte blocks with the fewest zeros |
| `Sha256.PadInjective` | crates/msgriver-core/src/canon.rs:467-474 | below 2^61 bytes the padded message determines the message |
| `Sha256.ExpandWords` | crates/msgriver-core/src/canon.rs:477-492 | the 64 words of the recursive message schedule |
| `Sha256.CompressChunk` | crates/msgriver-core/src/canon.rs:476-525 | one block: 64 rounds and the final additions |
| `Sha256Constants.RoundConstantsAreCubeRoots` | crates/msgriver-core/src/canon.rs:451-460 | FIPS 180-4 section 4.2.2: each round constant is the first 32 bits of the fraction of the cube root of its prime, the primes counted and the root bounded on both sides |
| `Sha256Constants.InitialIsSquareRoots` | crates/msgriver-core/src/canon.rs:463-466 | FIPS 180-4 section 5.3.3: the same of the initial words and square roots |
| `Sha256.ChoiceOfBits` | crates/msgriver-core/src/canon.rs:499 | wherever e has ones the choice has the bits of f, wherever zeros those of g |
| `Sha256.MajorityOfBits` | crates/msgriver-core/src/canon.rs:506 | wherever two of three words agree, in whatever places, the majority agrees with them |
| `Sha256.WordOfBytes` | crates/msgriver-core/src/canon.rs:479-481 | a word is the big-endian number of its bytes |
| `Sha256.HashBytesAt` | crates/msgriver-core/src/canon.rs:526-532 | the eight words of the digest in order |
| `Sha256.HmacSha256` | crates/msgriver-core/src/canon.rs:424-449 | RFC 2104 section 2 on the concatenated parts, for every key length |
| `Mac.LookupDigestV1` | crates/msgriver-core/src/canon.rs:557-573 | the HMAC of domain, principal, NUL and key |
| `Mac.SemanticFingerprintV1` | crates/msgriver-core/src/canon.rs:540-549 | the HMAC of domain and canonical bytes |
| `Mac.LookupInjective` | crates/msgriver-core/src/canon.rs:557-573 | among principals without NUL, equal inputs mean equal pairs |
| `Mac.LookupExact` | crates/msgriver-core/src/canon.rs:557-573 | an input belongs to one pair alone exactly when neither principal nor key holds a NUL |
| `Mac.AuthenticateIdempotency` | crates/msgriver-core/src/canon.rs:614-638 | purpose and length are checked before the provider is asked, and only a tag under the requested key is returned |
| `Mac.AuthTextInjective` | crates/msgriver-core/src/canon.rs:614-638 | framed inputs of one domain agree only on the same key id and the same parts, however many |
| `Mac.DomainsApart` | crates/msgriver-core/src/canon.rs:572-612 | a fingerprint input is never a lookup input |
| `Calendar.EraIsStepCount` | crates/msgriver-connectors/src/retry_after.rs:169-191 | for every date from year 0 the era formula is the number of next-day steps, with truncating division |
| `Calendar.EraFromEpoch` | crates/msgriver-connectors/src/retry_after.rs:169-191 | n steps from 1970-01-01 give n |
| `Calendar.EraInjective` | crates/msgriver-connectors/src/retry_after.rs:169-191 | different dates have different day counts |
| `RetryAfter.WeekdayIsStepped` | crates/msgriver-connectors/src/retry_after.rs:186-188 | the demanded weekday is the one stepping gives |
| `RetryAfter.ParseRetryAfter` | crates/msgriver-connectors/src/retry_after.rs:61-73 | every result lies between 1000 and 3600000 |
| `RetryAfter.FoldIsDecimal` | crates/msgriver-connectors/src/retry_after.rs:111-119 | digits are read exactly when their number fits in 63 bits |
| `RetryAfter.DeltaExact` | crates/msgriver-connectors/src/retry_after.rs:61-82 | a digit string is its clamped seconds, or ignored when the milliseconds overflow |
| `RetryAfter.MomentFits` | crates/msgriver-connectors/src/retry_after.rs:169-191 | nothing overflows for years 0 to 9999, and the weekday decides |
| `RetryAfter.ParseFormattedHeader` | crates/msgriver-connectors/src/retry_after.rs:61-109 | formatting a moment and parsing it gives the clamped difference from now, if that is positive |
| `RetryAfter.OnlyFormatsParse` | crates/msgriver-connectors/src/retry_after.rs:83-109 | only formatted moments are read as dates |
| `RetryAfter.NamesSpell` | crates/msgriver-connectors/src/retry_after.rs:121-151 | the names of days and months in their order |
| `RetryAfter.ExampleParses` | crates/msgriver-connectors/src/retry_after.rs:61-109 | the example date of RFC 7231 section 7.1.1.1 is its instant 784111777 |
| `Retry.RetryDelayV1` | crates/msgriver-core/src/retry.rs:39-68 | the loop with its early break equals the unbroken capped recurrence |
| `Retry.ExponentialStep` | crates/msgriver-core/src/retry.rs:44-51 | strict growth until the cap, which is never left |
| `Retry.ExponentialBelowPower` | crates/msgriver-core/src/retry.rs:44-51 | rounding down never exceeds the exact power |
| `Retry.DelayMonotone` | crates/msgriver-core/src/retry.rs:39-57 | the delay grows with ordinal, multiplier and the provider's wish |
| `Retry.DelayExact` | crates/msgriver-core/src/retry.rs:53-56 | the delay is the larger of the provider's wish and the smaller of the cap and the jittered exponential, rounded down |
| `Retry.DurableWakeBoundaryV1` | crates/msgriver-core/src/retry.rs:141-173 | refused exactly outside its domain or on overflow, else the earliest deadline, flagged exactly when the retry is strictly first |
| `Retry.DeriveRetryJitter` | crates/msgriver/src/jitter_source.rs:42-70 | the first counter whose tag is below the limit decides; otherwise unavailable |
| `Retry.JitterIsUniform` | crates/msgriver/src/jitter_source.rs:55-67 | each multiplier from 500 to 1500 is hit by equally many accepted 32-bit values |
| `Retry.CandidateIsBigEndian` | crates/msgriver/src/jitter_source.rs:61 | the candidate is the big-endian number of the first four bytes of the tag |
| `Retry.FramedInputInjective` | crates/msgriver/src/jitter_source.rs:76-86 | no two derivations share their input |
| `Retry.PipelineFits` | crates/msgriver-core/src/retry.rs:39-173 | eligible ordinals, drawn multipliers and parsed headers are valid delay input, and the delay is valid wake input |
| `Incarnation.ComposeIncarnation` | crates/msgriver-core/src/generation.rs:74-81 | namespace, then the serial big-endian |
| `Incarnation.EncodeIncarnationHex` | crates/msgriver-core/src/generation.rs:84-92 | 64 lower-case digits |
| `Incarnation.DecodeIncarnationHex` | crates/msgriver-core/src/generation.rs:103-121 | width, case and characters refused in that order; exactly the encodings decode |
| `Incarnation.RunKeeps` | crates/msgriver-core/src/incarnation.rs:221-258 | over every run the issued serials are exactly 1 to the high water, in order, and none is taken back |
| `Incarnation.RunsFromRoot` | crates/msgriver-core/src/incarnation.rs:221-258 | from a new root, over every run, the serials and incarnations issued are exactly the first ones of its namespace |
| `Incarnation.IssuedAreDistinct` | crates/msgriver-core/src/incarnation.rs:221-258 | issued incarnations and their wires are pairwise distinct and decode back |
| `Incarnation.ReplayIsExact` | crates/msgriver-core/src/incarnation.rs:221-235 | a retained command gets the same intent and burns nothing, another collides and burns nothing |
| `Incarnation.WitnessesStayLocal` | crates/msgriver-core/src/incarnation.rs:87-108 | every issued serial stays a local witness |
| `Incarnation.OnlyIssuedAreLocal` | crates/msgriver-core/src/incarnation.rs:87-108 | and nothing else is one |
| `Incarnation.FailsExactlyWhenExhausted` | crates/msgriver-core/src/incarnation.rs:348-356 | with nothing retained, allocation fails exactly when readiness says the incarnations are exhausted |
| `Hex.DecodeEncode` | crates/msgriver-core/src/generation.rs:84-121 | decoding inverts encoding |
| `Hex.EncodeDecode` | crates/msgriver-core/src/generation.rs:94-121 | only encodings decode |
| `JsonScan.LexicalDepthIsInvalid` | crates/msgriver-protocol/src/json.rs:129-162 | for every byte string: accepted exactly when strings are closed without raw control bytes and the brackets outside them are balanced, at most 64 deep |
| `JsonScan.NestsIsBalanced` | crates/msgriver-protocol/src/json.rs:145-162 | the stack accepts exactly the words of bracket trees of height at most 64 |
| `JsonTree.ScanIsExact` | crates/msgriver-protocol/src/json.rs:129-162 | every printed JSON value, with any white space at each place between its tokens, is accepted exactly when it nests at most 64 deep |
| `JsonTree.SkimUtf8` | crates/msgriver-protocol/src/json.rs:134-162 | scanning the bytes of a text is scanning its characters |
| `JsonTree.Visit` | crates/msgriver-protocol/src/json.rs:301-331 | rejects exactly when some object at some depth repeats a key |
| `JsonTree.VisitClosed` | crates/msgriver-protocol/src/json.rs:176-202 | accepts exactly the objects of allowed, unrepeated keys without null values, and names the first fault |
| `JsonText.JsonEscape` | crates/msgriver-client/src/lib.rs:100-122 | the escaping that `JsonText.EscapeReads` inverts |
| `JsonText.EscapeReads` | crates/msgriver-client/src/lib.rs:100-122 | reading by RFC 8259 section 7 gives the text back, and the first unescaped quote is the closing one |
| `JsonText.EscapeHasNoControls` | crates/msgriver-client/src/lib.rs:111-117 | no escaped string holds a raw control character |
| `JsonTree.JsonBody` | crates/msgriver-client/src/lib.rs:89-98 | the template is the printed object of the request's fields |
| `JsonTree.BodyInjective` | crates/msgriver-client/src/lib.rs:89-98 | different requests have different bodies |
| `JsonTree.BodyIsAcceptable` | crates/msgriver-client/src/lib.rs:89-98 | the scanner accepts every body |
| `Base64Url.EncodeBase64Url` | crates/msgriver-protocol/src/path.rs:192-213 | the encoding of `Base64Url.EncodingMeaning` |
| `Base64Url.EncodingMeaning` | crates/msgriver-protocol/src/path.rs:192-213 | RFC 4648 section 5: the digits spell the bits in order, closed with zero bits up to a digit |
| `Base64Url.DecodeBase64Url` | crates/msgriver-protocol/src/path.rs:155-179 | decodes exactly the encodings, each to the bytes it encodes |
| `Base64Url.EncodeInjective` | crates/msgriver-protocol/src/path.rs:192-213 | no two byte strings share an encoding |
| `Base64Url.ProviderSchemaId` | crates/msgriver-protocol/src/path.rs:121-135 | accepts exactly the encodings of texts; the comparison with the re-encoded text never rejects |
| `Base64Url.SegmentsDiffer` | crates/msgriver-protocol/src/path.rs:121-135 | different texts have different segments |

## Left out

- Sockets, HTTP, TLS, file trust, locks, process policy and thread sleeps: input and output over libraries.
- SQLite itself: statements that fail for other reasons than a constraint, failing commits and the dropped connection after one are not modelled; a transaction succeeds or changes nothing.
- Provider drivers: the outcome of a delivery is a parameter of `Store.DispatchDue`.
- `m2_state` and `m6_message_status`: they read one row.
- serde_json: the visitors of `JsonTree` work on value trees; parsing a text into one is not part of this model.
- Rendering, entity decoding, link and HTML parsing and NFKC of the checkers: functions of a `Lexer` or left out, and so are the visible bytes and flags of units that validation re-derives.
- `_split_table_cell_sources`: cells do not reach the unit tree.
- `SpecUnits.ValidateStructure`: the checks of visible bytes, leaf flags and re-derived clauses are left out, because what a unit shows is not modelled.
- Bounds on document and line length and forbidden Bidi controls: checked before parsing, no influence on what follows.
- `SpecParser.Parser.NextPosition`: the scope objects are counters of the parser and of its stack entries, chosen by whether a definition is being read; aliasing of scope objects is not captured.
- `SpecParser.Parser.MakeContainerBlock`: units are values in a list and their slices a parallel list, so updating a unit object in place is an update of the slice list.
- The composition of the allocator's decision functions into steps is the model's: the repository has the functions, not yet the coordinator that calls them.
- `Incarnation.FailsExactlyWhenExhausted`: the target, artifact and operation admission tables beside these functions are single matches and not modelled.
- `provider_id` and `message_id` of path segments, `backoff` and `combine_retry_after`: answerable by reading one body.
- Cryptographic strength: `QueueAdmission.RefusalIsCollision` exhibits a collision instead of assuming there is none.
