# Approvals across a text boundary, and what stands around them

A Dafny 4.11 model of a multi-agent service: agents propose actions, people decide them over HTTP,
specialists carry them out, and what each side learns of the other crosses between them as text. The
model follows the program's own structure, branch by branch, and proves what the design relies on.
`dafny verify dfyconfig.toml` checks everything.

**The text boundary** (`Texts`, `Json`, `JsonDecode`, `Numerals`, `Grammar`, `Printing`,
`RoundTrip`, `Reading`, `Barrier`, `Scanner`, `Contracts`, `Firsts`, `Reporting`, `Restating`,
`Replies`, `Publishing`). A callback prints a turn's audited tool results as JSON under whatever the
model said; the caller scans that text, or a wrapper around it, for objects. Text is a sequence of
code points, lone surrogates included. `Json` prints as `json.dumps` does, `JsonDecode` decodes as
`raw_decode` does, with Python's whitespace, its three non-finite literals and its limit on the
digits of an integer. `Grammar` has the JSON of RFC 8259, sections 2 to 7, as syntax trees and what
they mean, and proves the decoder to read exactly that; `Printing` proves the printer to write it,
and `RoundTrip` follows from the two. The main result is `Reporting.BodyScan`: no prose can hide or
disturb a restated result. It rests on two halves proved apart. Before the header nothing can be
decoded across it, and after it each printed block decodes to itself. `Restating` says what the
callback does in terms of the events alone.

**The approval protocol** (`Cases`, `Stores`, `Protocol`, `Lifecycle`, `Driving`, `Sequential`,
`Overlapping`, `Early`, `Opening`, `Returning`). `Protocol` is a state machine over one shared case
table, with any number of handlers of `POST /cases/{id}`: the UPDATE, the SELECT, the branch, the
execution turn, `record_execution` and the re-read are steps of their own, a turn replies with any
list of texts, and a handler may crash anywhere. The recording step checks nothing, so safety rests
on an inductive invariant over every handler's place in the endpoint. `Driving` proves the endpoint
as written, over the SQL store, and ties it to those steps. `Opening` joins the protocol to the text
boundary, and `Returning` runs the whole way, from the tool result that proposes to the tool result
that executes.

Some statements about the program do not hold as they stand. The code is followed, and the exact
condition proved. The endpoint's comment and `docs/human-in-the-loop.md` (line 154) say that a retry
cannot run or publish twice: it can when calls overlap, and `Overlapping.ArrivalGuardExact` says
when a call may come. The protocol is safe only while no read-back finds its case still pending,
which `cases_run` takes care of by handing ids out once their cases are stored:
`Early.ReadBackDecides`. `aclose` leaves a connector open exactly when another was recorded over it:
`Engine.CloseClosesAll`. A load never ends exactly when stored references lead round a loop:
`References.NeverEnds`. And a listing shows more than a session can load exactly when a session
called "user" keeps files that session does not: `Artifacts.ListsVisible`.

**The artifact store** (`Artifacts`, `References`, `Scoping`). Files named by version under a
directory named by the artifact refine a map from artifact to its sequence of versions. The class
keeps the files; a ghost field holds the map they stand for, which the files determine. Loading
follows references, on a stack of a given size.

**The engine** (`Engine`). Double-checked creation as thread steps, with builds that fail and
`aclose` between calls.

**The recursive query** (`RequestPath`). Rounds of a join, on lists, so that repeated rows count.

**Model selection and peers** (`ModelSelection`, `Peers`). Both are loops, proved against a
description of the result.

## Model

| member | source | states |
|---|---|---|
| RoundTrip.DecodeEncode | app/cluster/cases.py:573-578 | Loading what `json.dumps(sort_keys=True)` printed gives the value with the split surrogate pairs in its strings joined, for every value that can be dumped and has no such pair in a key; so it gives the value itself when no string holds one. |
| RoundTrip.JoinedRead | app/cluster/cases.py:538-545 | The same wherever the text stands, up to its own last character: `raw_decode` stops exactly there. |
| RoundTrip.ValueRead | app/cluster/cases.py:538-545 | `raw_decode` at the start of a printed value without split pairs gives that value and the index after its last character, whatever text stands before and after it. |
| RoundTrip.StringRoundTrip | app/cluster/cases.py:538-545 | A printed string decodes to itself with each high surrogate that is directly followed by a low one joined into one character; so it comes back unchanged if and only if it holds no such pair. |
| RoundTrip.EncodeInjective | app/cluster/cases.py:573-576 | The sorted-key spelling can stand for the value: two printable values with one spelling are equal. |
| Grammar.DecodesExactly | app/cluster/cases.py:543-543 | The decoder reads a value at a place, to there, if and only if a JSON text stands from there to there that cannot go on and means it. The texts are written from syntax trees, apart from the decoder: numerals and strings as sections 6 and 7 of RFC 8259 have them, any blank space between, Python's three names, the last of repeated members. |
| Grammar.PartsRead | app/cluster/cases.py:543-543 | A string is read to its closing quote for what its parts stand for: characters, short escapes, code units, an escaped high surrogate directly before an escaped low one being one character. |
| Numerals.NumberExactly | app/cluster/cases.py:543-543 | The numbers read are exactly the numerals: a minus or none, "0" or digits that do not start with one, any digits after a point, any digits after an "e" and its sign. One without point or exponent is an int, of up to 4300 digits; any other a float. |
| Printing.Written | app/cluster/cases.py:576-576 | What `json.dumps(sort_keys=True)` prints is a JSON text, by that grammar, with one space after each comma and colon and no other blank space, members in the order of their keys, numbers as they are spelled. |
| Printing.CharPartsAre | app/cluster/cases.py:576-576 | Printed strings escape the quote, the backslash and five control characters by a letter, everything else outside printable ASCII by its code units, and nothing else; what is printed for a character stands for it. |
| Printing.EncodePlain | app/agents/reporting.py:133-133 | A printed value is one line of printable ASCII, whatever strings it holds. |
| Printing.PrintedRead | app/agents/reporting.py:133-133 | A printed object is read back whole wherever it stands, whatever its keys and strings hold: as the object its text alone reads as. |
| Reading.FoundReprints | app/cluster/cases.py:543-549 | Every object the scanner finds can be dumped; found in text with no half of a surrogate pair, as text that came as UTF-8 is, it prints and reads back as it is. |
| Contracts.FloatNumberIs | app/cluster/cases.py:612-612 | The number a float counts as is the one its numeral spells: whole digits, each further digit after the point a tenth of the place before, times ten to the exponent, under its sign. |
| Contracts.NumbersEqual | app/cluster/cases.py:612-612 | An int equals a float, or a float a float, if and only if they are one number in whatever spelling; True is 1 and False 0. |
| Contracts.NamedNumbersEqual | app/cluster/cases.py:612-612 | NaN equals nothing, itself included, and an infinity only itself. |
| Barrier.ValueBefore | app/agents/reporting.py:129-134 | Wherever a decode begins before the report header, decoding the whole text and decoding only what stands before the header agree, in the value, in its end and in failing: no value can cross a raw newline, blank space and an "S". |
| Scanner.JsonObjectsIn | app/cluster/cases.py:525-552 | The scanning loop terminates and returns the objects of `Scan`, the recursion whose result the next two rows characterise; what decodes where is `Grammar.DecodesExactly`. |
| Scanner.ScanLeftmost | app/cluster/cases.py:538-552 | The spans taken are decodable objects, in order and without overlap, and every position where an object could be decoded lies in one of them. |
| Scanner.LeftmostUnique | app/cluster/cases.py:538-552 | Only one list of spans fits that description, so it determines what the scanner returns. |
| Scanner.BraceStartsObject | app/cluster/cases.py:547-551 | What decodes at "{" is always an object: the scanner's type test never fails. |
| Scanner.ScanBefore | app/agents/reporting.py:128-134 | Scanning a text with the report header in it gives the scan of what stands before the header followed by the scan from the header on. |
| Reporting.PayloadsOf | app/agents/reporting.py:80-86 | The dict-shaped tool results of one event, each taken out of its `{"result": ...}` wrapper when that holds a dict. |
| Reporting.LastSpokenIs | app/agents/reporting.py:119-126 | The words kept are those of the last event of the invocation that spoke in the agent's name with something other than blanks; none are kept exactly when none did. |
| Reporting.RestateStructuredResults | app/agents/reporting.py:106-135 | The nested loops compute `Restatement`: raise when a status is unhashable or an audited result cannot be printed, leave the reply alone when nothing is audited, and otherwise replace it by the last non-blank words over the distinct audited results. |
| Reporting.BodyScan | app/agents/reporting.py:132-134 | For every prose and every list of printable results: scanning the body gives exactly what scanning the prose gives, followed by the results in order. Prose can neither hide nor reorder a restated result. |
| Reporting.BlocksScan | app/agents/reporting.py:132-133 | Printed one a line, the results scan back to themselves: each block decodes to its own value and ends at its own brace. |
| Reporting.AllRestated | app/agents/reporting.py:109-118 | De-duplication drops repeats and nothing else: every printable audited payload is among the results. |
| Reporting.RestatementScan | app/agents/reporting.py:106-135 | For the whole callback: a replaced reply is already stripped, and it scans to what the last words scan to and then each audited payload of the invocation, once. |
| Reporting.BodyKept | app/agents/reporting.py:134-135 | A body is its own `strip()`, so reading it as a reply changes nothing in it. |
| Restating.TurnPayloadsAre | app/agents/reporting.py:80-86 | The results considered are exactly the dicts that the invocation's tool responses bear: the dict under "result" where there is one, else the response itself. |
| Restating.TurnPayloadsInOrder | app/agents/reporting.py:110-114 | They come event by event, in order, and other invocations add none. |
| Restating.ReportedInOrder | app/agents/reporting.py:115-116 | Of them those that say "approval_required" or "published" are kept, in order, and no others. |
| Restating.RestatementIs | app/agents/reporting.py:115-131 | The callback raises if and only if some result of the invocation has a list or a dict for a status, or reports and holds an integer too long to print; it leaves the reply alone if and only if none raises and none reports. |
| Restating.BlocksAreLines | app/agents/reporting.py:133-133 | The block has one line for each result restated, its JSON, whatever it holds. |
| Restating.RestatementRead | app/agents/reporting.py:106-135 | As soon as one result reports and none raises the reply is replaced, and what is read from it is what is read from the last words and then one object for each result: each reported result once by its spelling, no other result, and each that holds no split pair as it is. |
| Restating.WordsInOrder | app/agents/reporting.py:126-126 | The words of an event are its parts' texts, in order. |
| Firsts.FirstByPositions | app/cluster/cases.py:568-580 | De-duplication on a key keeps the first value of each key, at strictly increasing positions. |
| Firsts.FirstByKeys | app/cluster/cases.py:573-579 | It loses no key and makes none up. |
| Firsts.FirstBySeen | app/cluster/cases.py:573-579 | Appending values whose keys were all seen changes nothing. |
| Replies.FindProposalsIn | app/cluster/cases.py:555-580 | The nested loops over replies and objects compute `FindProposals`, with `seen` the keys of what was found. |
| Replies.FindOnePerProposal | app/cluster/cases.py:564-580 | One entry for each canonical proposal reported: each is the first report of its proposal, entries stand in first-seen order, no two share a proposal, and every report has one. |
| Replies.FindDoubled | app/cluster/cases.py:564-567 | Every text given twice, as a tool result and again as its narration, finds nothing more. |
| Replies.FindExecution | app/cluster/cases.py:602-614 | A result is returned if and only if some object in some reply has status "published" and equals the proposal, by Python equality, on each of its string, number and boolean fields; what is returned is such an object. |
| Replies.FindExecutionIn | app/cluster/cases.py:602-614 | The two loops with their early return compute that. |
| Replies.FindExecutionIsFirst | app/cluster/cases.py:607-614 | It is the first confirming object: no object before it, in reply order, confirms the proposal. |
| Replies.ConfirmsIs | app/cluster/cases.py:602-612 | An object confirms a proposal if and only if it says "published" and has, under each key where the proposal has a string, a number or a truth value, that string or that number in any spelling. |
| Replies.EqualsIs | app/cluster/cases.py:612-612 | Two scalars are equal if and only if they are one string, one number or one infinity. |
| Replies.ReportsProposalIs | app/cluster/cases.py:571-576 | A report is a dict that says "approval_required" and holds its proposal as a dict, whose spelling is the key. |
| Replies.ReportsInOrder | app/cluster/cases.py:569-574 | Objects, and the reports among them, come in the order of the texts. |
| Replies.UnpackIsOwed | app/cluster/cases.py:689-722 | The texts a tool result is flattened to are exactly the strings anywhere inside it, however deeply wrapped in dicts and lists, and the spellings of its dicts. |
| Replies.RepliesExactly | app/cluster/cases.py:737-744 | A text is scanned if and only if a tool result of the event gives it or it is the event's own words, stripped and not blank. |
| Replies.TextsInOrder | app/cluster/cases.py:708-744 | They come in order: a dict's spelling before what its values hold, tool results before the event's own words, which are there if and only if they are not blank. |
| Publishing.Publisher.PublishResult | app/agents/math/tools.py:157-169 | Without a non-blank approver nothing is published and the reply proposes; with one, exactly one record is appended, with the canonical value, and the reply publishes it. |
| Publishing.PublishedFields | app/agents/math/tools.py:167-169 | The publishing reply has exactly six fields: status, action, note, value, label and approver, each as given. |
| Publishing.ProposedReplyFields | app/agents/math/tools.py:160-165 | The proposing reply has exactly four, with the status "approval_required", and its proposal exactly the action, the value and the label. |
| Publishing.PlainIntegerIs | app/agents/math/tools.py:131-135 | An integer numeral is a sign or none, digits, and perhaps a point and zeros, and stands for the signed number of its digits; nothing else is taken for one. |
| Publishing.CanonicalIs | app/agents/math/tools.py:131-135 | What is published is the integer of an integer numeral up to 2^53, printed; otherwise the text itself when `float()` refuses it, `str()` of the int when it reads a whole number, and its `repr` when it does not. |
| Publishing.CanonicalOnIntegers | app/agents/math/tools.py:131-135 | On integer numerals within plus or minus 2^53, two spellings have one canonical value if and only if they are one number, and a canonical value is its own. |
| Publishing.PublicationConfirms | app/cluster/cases.py:602-613 | A publication confirms a proposal if and only if it has the same canonical value and the same label. |
| Publishing.ReplyConfirms | app/agents/math/tools.py:157-169 | A call's reply says "published" if and only if the call has a non-blank approver, and it confirms a proposal if and only if, besides, canonical value and label are those proposed. |
| Publishing.SameNumberCarriesOut | app/agents/math/tools.py:115-123 | For integer numerals within plus or minus 2^53, in any spelling: a call carries a proposal out if and only if it has an approver, the same number and the same label. |
| Publishing.WrapperScan | app/cluster/cases.py:696-701 | Serialising the `{"result": text}` wrapper hides the text's own JSON: all that is found in it is the wrapper, for every text. |
| Publishing.ProposalFound | app/cluster/cases.py:555-580 | A proposal from `publish_result` is found whatever prose it is restated under, whatever else is reported and however the reply is wrapped. |
| Publishing.ConfirmationFound | app/cluster/cases.py:602-614 | So is the confirmation of its value and label. |
| Publishing.ProposalFoundIn | app/cluster/cases.py:555-580 | A proposal that can be read from a reply is found however the reply is wrapped and whatever else the turn said. |
| Publishing.OnlyTheApprovedConfirms | app/cluster/cases.py:586-593 | For any texts whose "published" objects are the replies to some calls with an approver: a proposal is confirmed if and only if one of those calls has its canonical value and label. A different value or label is never accepted. |
| Publishing.RestatedCallsReported | app/cluster/cases.py:586-593 | Texts are such when each is free of "published" objects or restates calls' replies under words free of them, and each call with an approver is restated in one. |
| Publishing.RepliesReported | app/cluster/cases.py:725-744 | So are the replies of an event with any number of tool results, wrapped in anything, and the caller's own words, when every string inside them, every spelling of a dict and those words are such. |
| Publishing.WrapperIsQuiet | app/cluster/cases.py:696-701 | The spelling of the `{"result": text}` wrapper never says "published", whatever the text. |
| Publishing.WrappedReplyConfirms | app/cluster/cases.py:602-614 | The usual turn, one wrapped answer that restates any number of calls and the caller's own words: the same if and only if. |
| Returning.AnswerRestated | app/agents/reporting.py:89-135 | Whatever else a turn did, said or reported: as long as nothing in it raises, the answer to each call of the gated action, bare or in its wrapper, can be read from the reply the callback leaves. |
| Returning.ReplyPrintable | app/agents/math/tools.py:157-169 | An answer prints, and reads back as it is, if and only if its texts hold no split pair. |
| Returning.AnswerConfirms | app/cluster/cases.py:583-614 | From a turn's tool results to the caller's verdict: a call answered in the turn confirms every proposal it carries out, however the reply is wrapped. |
| Returning.RestatesOnlyAnswers | app/agents/reporting.py:115-120 | Nothing else is made to look published: when the last words hold no publication and each publication among the tool results answers one of the calls, every publication read from the reply answers one of them. |
| Cases.ListsUnique | app/cluster/cases.py:428-438 | With distinct creation times there is one list of the cases in a status, oldest first. |
| Cases.ListsPartition | app/cluster/cases.py:266-271 | A case is in the list of its own status and in no other. |
| Cases.AnswersDetermined | app/cluster/cases.py:174-245 | The abstract table determines every answer of every run of open, get, list, decide and record calls. |
| Cases.DecideIs | app/cluster/cases.py:440-470 | RECORDED if and only if the case is there and pending, NOT_FOUND if and only if it is not there, ALREADY_DECIDED otherwise. Recording sets status, decider, note and time on that row and nothing else; otherwise nothing is written and the row is shown as it stands. |
| Cases.RecordedExactly | app/cluster/cases.py:440-470 | In any run of calls, a decide on a case that is there is answered RECORDED if and only if the case was pending and no call before decided or closed it, and else ALREADY_DECIDED. |
| Cases.FirstIsRecorded | app/cluster/cases.py:449-463 | So of any number of decides on one pending case, none closing it unasked, the first alone is answered RECORDED. |
| Cases.OpenIs | app/cluster/cases.py:390-416 | Opening adds the case if and only if its id is not known, and touches no other; deciding the id finds nothing before and is recorded after. |
| Cases.RecordExecutionIs | app/cluster/cases.py:472-489 | Recording an execution sets status, result and time on the row, whatever its status was, and nothing else. |
| Stores.InMemoryCaseStore.Open | app/cluster/cases.py:255-260 | Adds the shared case object unless its id is known, and says which. |
| Stores.InMemoryCaseStore.Decide | app/cluster/cases.py:273-286 | Mutates the one shared object in place; the table and the answer are those of the abstract `Decide`, and no other case changes. |
| Stores.InMemoryCaseStore.RecordExecution | app/cluster/cases.py:288-298 | Closes the shared object whatever its status was; the rest of the table is untouched. |
| Stores.InMemoryCaseStore.ListByStatus | app/cluster/cases.py:266-271 | Returns exactly the objects in the status, oldest first. |
| Stores.OldestIds | app/cluster/cases.py:268-271 | Sorting by creation time: the same ids, in increasing time. |
| Stores.DatabaseCaseStore.Open | app/cluster/cases.py:390-416 | Inserts the named columns unless the id is known; outcome columns start out null. |
| Stores.DatabaseCaseStore.UpdatePending | app/cluster/cases.py:449-463 | The conditional UPDATE: writes the decision and returns the row if and only if the row was there and pending. |
| Stores.DatabaseCaseStore.Decide | app/cluster/cases.py:440-470 | UPDATE, then read-back, gives the table and answer of the abstract `Decide`. |
| Stores.DatabaseCaseStore.RecordExecution | app/cluster/cases.py:472-489 | The unguarded UPDATE gives those of the abstract `RecordExecution`. |
| Stores.DatabaseCaseStore.ListByStatus | app/cluster/cases.py:428-438 | SELECT ... ORDER BY created_at: exactly the cases in the status, oldest first. |
| Stores.RowOfNew | app/cluster/cases.py:401-415 | INSERT keeps the whole case if and only if the case has no outcome yet. |
| Stores.BothAgree | app/cluster/cases.py:248-298 | From empty, every admissible run of calls is answered the same by the two stores, which end up standing for the same table. |
| Protocol.StepKeeps | app/fast_api_app.py:336-398 | Every enabled step of every handler, crashes included, keeps the invariant that ties each handler's place in `case_decide`, and the row it read, to the shared row. |
| Protocol.StepKeepsCore | app/fast_api_app.py:336-398 | All of it but the freshness of read-backs is kept by every step the code allows, as long as no read-back finds its case pending. |
| Protocol.RunKeeps | app/fast_api_app.py:336-398 | So every state of every interleaving satisfies it. |
| Protocol.RecordKeeps | app/cluster/cases.py:472-489 | In particular the unguarded recording does, although it checks no status. |
| Lifecycle.ExecutedWasApproved | app/fast_api_app.py:350-398 | In every reachable state an executed case has an approving decision on record, carries its decider and note, and has a "published" result equal to the stored proposal on every scalar field. |
| Lifecycle.OnlyExecutedHasResult | app/fast_api_app.py:364-392 | FAILED is never reached through the endpoint; a case has a result and a time of execution if and only if it is executed, and a time of decision if and only if it is decided: a rejected one never gains a result. |
| Lifecycle.RunAdvances | app/cluster/cases.py:67-79 | Over any stretch of any run a status moves only pending to approved to executed or pending to rejected; a rejected case never changes again; the proposal and all else a case was opened with never change; decider, note and time are fixed with the decision. |
| Lifecycle.DecidedOnce | app/cluster/cases.py:440-470 | Of any number of concurrent decides on a case that is decided, exactly one answers RECORDED, and every answer carries that decision's decider and note and a status it allows. |
| Lifecycle.VerdictKept | app/cluster/cases.py:449-463 | Once recorded, the decision is the same in every later state. |
| Lifecycle.UpdateDecides | app/cluster/cases.py:449-463 | The protocol's UPDATE is the stores' decide: it logs a recorded answer if and only if that decide is RECORDED, with the row it wrote, and changes nothing otherwise. |
| Lifecycle.SelectDecides | app/cluster/cases.py:465-470 | Its read-back gives the other two: ALREADY_DECIDED with the row as it stands, or NOT_FOUND, which ends the call. |
| Lifecycle.UnknownWasMissing | app/fast_api_app.py:356-357 | A caller is told the case is unknown only when its own read-back found none, and then no one had been answered about that case before. |
| Lifecycle.TurnsBounded | app/fast_api_app.py:364-379 | No more execution turns are started for a case than decide steps read it as approved. |
| Lifecycle.TurnsReadBeforeConfirmation | app/fast_api_app.py:364-392 | A turn that starts after an execution was recorded belongs to a handler whose decide read the case as approved before that recording: a later decide starts none. |
| Driving.CaseDecide | app/fast_api_app.py:336-398 | The endpoint over the SQL store computes `Call`: new table and answer. |
| Driving.CallIs | app/fast_api_app.py:350-398 | Every case of a call: 404 if and only if the id is unknown; a rejection of a pending case answers "rejected" with the decided row; an approval, or any call on an approved case, executes it with the first confirming object in the replies, or answers that nothing was confirmed; a closed case is only shown. |
| Driving.CallRedrives | app/fast_api_app.py:361-398 | On an approved case, whatever its own verdict, a call ends executed if and only if the reply holds an object confirming the proposal, and otherwise leaves the table as it was; a rejected or executed case is only reported. |
| Driving.CallAmongOthers | app/fast_api_app.py:340-348 | From every reachable state, whoever else is under way or has crashed, one more uninterrupted call is a stretch of a run and ends with exactly that table and answer. |
| Driving.RedriveStartsTurn | app/fast_api_app.py:340-348 | And if the case stands approved, that call starts a turn. |
| Sequential.SoloConfirmsOnce | app/fast_api_app.py:340-347 | While a call on an open case arrives only when no other can still record an execution (or neither approves what is pending), whichever crash, an execution is recorded at most once, once if and only if the case ends executed, and no turn starts after it. |
| Overlapping.ArrivalThenTwice | app/fast_api_app.py:340-347 | From every reachable state: a call that arrives on an open case while another handler can still record an execution, one of the two approving what is pending, can with a confirming reply lead to two recordings, each handler starting its turn. |
| Overlapping.ArrivalGuardExact | app/fast_api_app.py:340-347 | So that guard on arrivals is exact: given a confirming reply, a call meets it if and only if no continuation under it records the execution twice. |
| Overlapping.OverlapConfirmsTwice | app/fast_api_app.py:340-347 | "A retry is safe" is false of calls that overlap: for every new case, approval and confirming reply there is a run with two turns and two recordings. |
| Overlapping.ConfirmingReplyExists | app/cluster/cases.py:602-614 | A proposal and reply as those runs need: the empty proposal and a bare "published" object. |
| Early.FreshReadsExecuteApproved | app/cluster/cases.py:449-470 | Whenever ids became known: while no read-back finds its case still pending, every executed case was approved, its row carries that decision and its result confirms the proposal. |
| Early.StaleReadExecutes | app/fast_api_app.py:350-392 | One read-back that finds its case pending is all it takes, in every state reached without one: its handler can execute the case with no decision in the history and, on the row, no decision time and the decider and note of the pending case. |
| Early.ReadBackDecides | app/cluster/cases.py:465-470 | It is exact: a handler's way on from its read-back can execute the case undecided if and only if the read-back finds it pending. |
| Early.EarlyDecisionExecutes | app/fast_api_app.py:300-308 | It happens when an id is decided before its case is stored, even by a call that rejects it. |
| Early.StoredFirstReadsFresh | app/fast_api_app.py:300-308 | Handing ids out only after the insert keeps every run from it. |
| Opening.CasesRun | app/fast_api_app.py:296-308 | Opens a case for each proposal found in the replies, in order, and reports the ones it opened. |
| Opening.NewCase | app/cluster/cases.py:617-640 | A case starts out pending, undecided and not run, under the id it was given, with the proposal as reported; an INSERT keeps all of it. |
| Opening.CaseFields | app/cluster/cases.py:632-640 | Agent and summary are the report's, blank when missing; the action is the report's, or the proposal's where that is missing or false; the session stands for the wider unit of work too. |
| Opening.FalsyIs | app/cluster/cases.py:636-636 | False are null, False, every spelling of zero, and the empty string, list and dict. |
| Opening.CaseOfReply | app/agents/math/tools.py:160-165 | For the gated action: its proposal, its name and the summary it gave. |
| Opening.OpenedInOrder | app/fast_api_app.py:300-308 | Cases are opened one after the other, each if and only if its id is not known by then. |
| Opening.RaisedPrintable | app/cluster/cases.py:573-576 | Proposals found in replies with no half of a surrogate pair print as they are, as `ProposedThenExecuted` asks of them. |
| Opening.FreshIdsOpenAll | app/fast_api_app.py:300-308 | With new ids every case is opened and stored as built, and no other row changes. |
| Opening.ProposedThenExecuted | app/fast_api_app.py:291-398 | End to end: whatever reply its answer can be read from, and however it is wrapped, what a call without an approver proposes is stored as a pending case, under one of the ids given out, with exactly its canonical value and label. Approving it executes it if and only if the calls published in the execution turn include one with an approver, that canonical value and that label; otherwise the case stands approved; no other row changes either way. Under words that may themselves hold publications, the answer of such a call still executes it. |
| Returning.ProposedToExecuted | app/fast_api_app.py:291-398 | The same from tool result to tool result: a call without an approver answered in one turn becomes a pending case, whatever the model made of it, and approving that case executes it with any turn in which a call that carries it out was answered. |
| Opening.InstructionCarriesProposal | app/cluster/cases.py:643-662 | The execution instruction holds the proposal to the letter: scanned like a reply it is the first object, whatever the approver's name and note say, when the agent's name has no brace. |
| Opening.InstructionLines | app/cluster/cases.py:652-662 | The instruction line by line: the specialist, the proposal alone, the decider or "unknown", their note if there is one, and the request. |
| Artifacts.VersionPathInjective | app/shared/artifacts.py:128-172 | Two versions share a path only if they are one version of one artifact. |
| Artifacts.RepresentsOne | app/shared/artifacts.py:25-37 | The files determine the artifacts and their versions: the numbers stored for an artifact are exactly 0 to n-1, and there is no stray file. |
| Artifacts.NumberedChildren | app/shared/artifacts.py:333-340 | What lies in an artifact's directory under a number is exactly its versions, for filenames of plain segments with no all-digit one after the first. |
| Artifacts.ArtifactService.ListVersions | app/shared/artifacts.py:325-340 | Exactly the stored version numbers. |
| Artifacts.ArtifactService.SaveArtifact | app/shared/artifacts.py:342-360 | Refines appending to the artifact's sequence of versions: returns the old length, changes no other artifact, and on an invalid name, missing session or unstorable part changes nothing. |
| Artifacts.ArtifactService.LoadArtifact | app/shared/artifacts.py:362-380 | Returns what `Fetch` says of the abstract versions: the last when none is named, entry v or nothing otherwise, references followed. |
| Artifacts.ArtifactService.PartFromEnvelope | app/shared/artifacts.py:256-321 | A reference is checked against its requester's scope and loaded in turn; anything else is restored as stored. |
| Scoping.KeyOfIs | app/shared/artifacts.py:151-160 | A call is refused if and only if a segment is unsafe or a name outside the user's namespace comes without a session; a name in it means one artifact for every session. |
| Scoping.ContentIs | app/shared/artifacts.py:222-254 | What is stored: bytes before text before a file; a file by its URI, a reference if and only if it parses and is in the caller's scope; nothing else. |
| Scoping.RestoredIs | app/shared/artifacts.py:281-321 | What comes back: text and files as stored, bytes with the default type when they had none and no name when it was blank. |
| Scoping.OutOfScopeRefused | app/shared/artifacts.py:237-249 | A reference that does not parse or is not in the caller's scope is not stored, and one stored all the same is refused on every load, whatever the room. |
| Scoping.InScopeFollowed | app/shared/artifacts.py:284-302 | One that is in scope is stored, and loading it is loading what it names in the name of whom it names. |
| Scoping.LoadsAlongTheWay | app/shared/artifacts.py:283-302 | A load of a named version that does not run out of stack returns exactly what stands at the end of the way of references from there, each of which the one before may follow: a part, nothing, or a refusal. |
| Scoping.VersionLoaded | app/shared/artifacts.py:370-380 | Without a version it is the last one, or nothing; a version that is not there is not found, and only a negative one can name a directory. |
| Artifacts.ArtifactService.DeleteArtifact | app/shared/artifacts.py:419-430 | Removes every version of one artifact and nothing else. |
| Artifacts.ArtifactService.FilenamesUnder | app/shared/artifacts.py:382-402 | Rebuilds exactly the filenames stored under a scope, slashes included. |
| Artifacts.ArtifactService.ListArtifactKeys | app/shared/artifacts.py:404-417 | Sorted, without repeats: the filenames under the session and under "user". |
| Artifacts.ListsVisible | app/shared/artifacts.py:404-417 | That listing is exactly the artifacts the session can name if and only if whatever a session called "user" kept is also the session's own. |
| Artifacts.UserSessionShows | app/shared/artifacts.py:404-417 | It does fail: what a session called "user" saves is listed for every other session, which cannot load it. |
| Artifacts.FolderExists | app/shared/artifacts.py:372-378 | A version path that exists without being a file can only name a negative version. |
| References.SavedPartReturns | app/shared/artifacts.py:342-380 | The next load without a version returns the part just saved. |
| References.SaveKeepsLoads | app/shared/artifacts.py:342-380 | While stored references name stored versions, a save changes nothing that loading a stored version returns. |
| References.LoadsEnd | app/shared/artifacts.py:290-308 | On every run of saves, with no delete, whose references name versions already stored, every load ends within as many hops as there are stored files. |
| References.MoreRoom | app/shared/artifacts.py:290-308 | A load that ends returns the same with any larger stack. |
| References.EndsOrNever | app/shared/artifacts.py:290-308 | Whatever is stored: a load that does not end within as many hops as there are different references stored never ends. |
| References.RefNeverEnds | app/shared/artifacts.py:283-302 | A reference never loads, whatever the stack, if and only if the references stored lead from it round a loop. |
| References.NeverEnds | app/shared/artifacts.py:362-380 | The same for every load: it never ends if and only if it is of a stored version from which the references stored lead round a loop. |
| References.SelfReferenceNeverEnds | app/shared/artifacts.py:231-249 | The shortest loop: a reference to the version it is itself saved as is accepted and never loads. |
| References.DeleteMakesLoop | app/shared/artifacts.py:419-430 | Deletes make loops of references that each named a stored version: numbers restart, and two artifacts come to name each other. |
| References.NumberInNameClashes | app/shared/artifacts.py:333-340 | A filename with a number anywhere after its first segment lists that number as a version of the name made of the segments before it. |
| References.NumberRuleExact | app/shared/artifacts.py:333-340 | The rule on filenames is exact: an artifact's files pass for versions of another if and only if a segment of its name after the first is a number. |
| Engine.StepKeeps | app/cluster/db.py:315-325 | Each thread step of `engine()`, failing builds included, and `aclose` keep mutual exclusion and the state of every thread. |
| Engine.OneEngineForAll | app/cluster/db.py:298-325 | In every interleaving with no `aclose` under a call: between one `aclose` and the next at most one engine is built, every call returns that one, and none returns without an engine. |
| Engine.OnlyHolderBuilds | app/cluster/db.py:315-324 | Whoever builds holds the lock, finds no engine in place and is alone inside. |
| Engine.ConnectorRecorded | app/cluster/db.py:353-375 | An engine in place goes through the recorded connector, and there is one if and only if the backend is AlloyDB. |
| Engine.CloseDisposesAll | app/cluster/db.py:415-424 | In every run, builds that fail included, `aclose` leaves no engine undisposed. |
| Engine.CloseClosesAll | app/cluster/db.py:415-427 | For every backend and run, `aclose` leaves no connector open if and only if none was recorded over another still recorded. |
| Engine.NoFailureClosesAll | app/cluster/db.py:366-390 | Only a build that failed between its connector and its engine brings that about. |
| Engine.FailedBuildLeaks | app/cluster/db.py:366-390 | It happens: such a build that is tried again records a second connector over the first, which `aclose` leaves open. |
| Engine.Database.GetEngine | app/cluster/db.py:298-325 | The method by itself, lock and second look included: the new fields and what then stands open, and the engine returned, none exactly when no backend is configured. |
| Engine.Database.BuildAlloyDbEngine | app/cluster/db.py:353-390 | Records a new connector, then builds an engine through it. |
| Engine.Database.BuildUrlEngine | app/cluster/db.py:392-413 | Builds an engine with no connector. |
| Engine.Database.Aclose | app/cluster/db.py:415-427 | Disposes of the engine in place and closes the connector recorded, if any, and leaves neither. |
| Engine.LoneCall | app/cluster/db.py:298-325 | From any state with the lock free, a call's steps with nothing between them are enabled in turn and leave what the method computes. |
| RequestPath.DepthBounded | scripts/sql/request_path.sql:80-84 | No row is as deep as there are sessions, whatever loops the hops hold: the recursion ends. |
| RequestPath.RowsAreSimplePaths | scripts/sql/request_path.sql:72-85 | The `seen` arrays of the rows are exactly the delegation paths from a root without repeats; each row is one longer than its depth, ends at its session and carries the last hop's agent. |
| RequestPath.WalkReaches | scripts/sql/request_path.sql:72-85 | The sessions in the rows are exactly those some chain of delegations, loops allowed, leads to from a root. |
| RequestPath.RowsPerPath | scripts/sql/request_path.sql:79-84 | A path has one row for each choice of a root row and of a delegation event at each hop: a callee answering twice in one session doubles every row below it. |
| RequestPath.ForestOnce | scripts/sql/request_path.sql:71-85 | On a forest each session reached is in exactly one row. |
| ModelSelection.CapturedMatches | app/shared/model_selection.py:33-35 | Reading an id finds the one version and remainder the id pattern matches, if and only if it matches. |
| ModelSelection.ClassifySpelled | app/shared/model_selection.py:66-86 | An id of a version, a family and more tokens is read as just those: a preview, the bare name or a numbered release; a family followed by anything else is skipped. |
| ModelSelection.ClassifiedSpelled | app/shared/model_selection.py:66-86 | And no other id is read as a model. |
| ModelSelection.VersionIs | app/shared/model_selection.py:44-44 | A version is one numeral or two with a dot between, and counts as their numbers. |
| ModelSelection.NumbersInOrder | app/shared/model_selection.py:85-85 | The suffix numbers are those of the tokens that are numerals, in order. |
| ModelSelection.KeyLessTotal | app/shared/model_selection.py:116-118 | Python's order on the nested sort keys is a strict total order. |
| ModelSelection.KeyLessTransitive | app/shared/model_selection.py:116-118 | It is transitive. |
| ModelSelection.LessIs | app/shared/model_selection.py:116-118 | One tuple is less than another where they first differ, or where it ends first. |
| ModelSelection.LaterModel | app/shared/model_selection.py:92-95 | Later means a higher version; then stable before preview; then the bare family name before a numbered release; then the higher numbers. |
| ModelSelection.SelectLatestModel | app/shared/model_selection.py:106-124 | Returns the earliest id with the greatest key in its family, and fails exactly when the family has no member. |
| ModelSelection.ClassifyEmbeddingModel | app/shared/model_selection.py:139-151 | The loop returns the key under the first family the id is in. |
| ModelSelection.EmbeddingSpelled | app/shared/model_selection.py:139-151 | The key of an embedding id spelled as a family and more tokens: the family's priority, whether it is stable, and its numbers. |
| ModelSelection.LaterEmbedding | app/shared/model_selection.py:147-150 | Later means a more preferred family; then a release before a variant; then the higher numbers. |
| ModelSelection.DashesIgnored | app/shared/model_selection.py:143-143 | Further dashes after the family's name are passed over. |
| ModelSelection.FamiliesDisjoint | app/shared/model_selection.py:26-31 | No id is in two embedding families. |
| ModelSelection.SelectEmbeddingModel | app/shared/model_selection.py:170-183 | The same selection over embedding keys. |
| ModelSelection.BestFamilyWins | app/shared/model_selection.py:157-159 | The embedding model chosen is of the most preferred family that has any. |
| ModelSelection.WinnerUnique | app/shared/model_selection.py:104-119 | There is one possible selection, and none exactly when nothing competes. |
| ModelSelection.WinnerOfWinners | app/shared/model_selection.py:104-119 | Selecting from two lists together is selecting from their two winners. |
| ModelSelection.OthersIgnored | app/shared/model_selection.py:107-113 | Ids of other families, or of none, change nothing. |
| Peers.ServiceUrlInjective | app/cluster/config.py:119-123 | Different names have different derived URLs. |
| Peers.ServiceUrlParts | app/cluster/config.py:119-123 | The host is the name, then the namespace, then the domain, as DNS labels, and the port is left out if and only if it is the scheme's own, and else stands after a colon. |
| Peers.EntryIs | app/cluster/config.py:152-169 | An entry is a name, or a name, "=" and a URL, without the blanks around them: skipped without a name, at its service's address without a URL. |
| Peers.SlashesDropped | app/cluster/config.py:169-169 | All slashes at the end of a URL are dropped, and nothing else. |
| Peers.EntriesInOrder | app/cluster/config.py:151-153 | Entries come in the order of the items, one for each that names a peer. |
| Peers.ItemsAre | app/cluster/config.py:148-148 | The items are what stands between commas, stripped, or the defaults when the setting is missing or empty. |
| Peers.ParsePeers | app/cluster/config.py:148-170 | One peer for each name, in the order of first mention, with the URL last given. |
| Peers.SummaryUnique | app/cluster/config.py:150-170 | The entries determine that list. |
| Peers.ReadProper | app/cluster/config.py:151-169 | Names read from a setting are stripped, not empty and free of "=" and commas; URLs end in no slash. |
| Peers.SettingReadsBack | app/cluster/config.py:148-170 | Writing peers as comma-separated name=url and reading that back gives the same peers if and only if every URL is non-empty, has no comma and no space at its ends. |

## Left out

- The language model, ADK's runner and A2A: a turn is an arbitrary list of reply texts, a tool result an arbitrary nesting of dicts, lists, strings and other values.
- SQLAlchemy, transactions and connections: each SQL statement is one atomic step, and a crash falls between statements, never inside one. A `decide` whose UPDATE ran and whose commit did not is not modelled.
- That an executed case has its effect in `PUBLICATIONS`: the prose may itself contain a matching object, so it does not hold.
- Stores.DatabaseCaseStore.Open: INSERT always succeeds. The columns' lengths, and what the JSON column refuses (NUL and lone surrogates, which the model's text allows), are not modelled.
- Floats: a float is its spelling, two spellings of one float are two values, equality compares the decimal numbers they spell without rounding, and what `float()` makes of anything but an integer numeral up to 2^53 is an arbitrary function.
- Python's recursion limit in `json`: nesting is unbounded.
- Unicode digits: `isdigit`, `\d` and `int` are modelled on ASCII digits, and the ids and names that are read as numbers are taken to be short enough for `int`.
- `json.dumps(..., default=str)`: the values restated are JSON, so the default is never used. In `_unpack` it is a parameter.
- `str()` of a value that is not a string, in `case_from_proposal`: a parameter. `public()` and the timestamps' formatting are left out, and clocks and new ids are parameters.
- Returning.ProposedToExecuted: for calls whose texts hold no split surrogate pair, and for replies whose proposals print as they are, as all do that are read from text without surrogates (`Opening.RaisedPrintable`).
- A confirmation when the decider is not empty but blank: the instruction passes it on and `publish_result` refuses it.
- Cases.IsListing: two cases created at the same instant are not ordered, so listings are stated for distinct times.
- Artifacts.ArtifactService.SaveArtifact: for filenames of non-empty segments other than "." and "..", with no all-digit segment after the first, and for saves that do not overlap; what `pathlib` makes of other names is not modelled.
- Artifacts.ArtifactService.LoadArtifact: references are taken as parsed by ADK, to filenames of the same kind; the check of a path segment is modelled as non-empty, without a slash and not "." or "..", and the check of a reference's scope is a parameter. Neither is part of this repository.
- Artifacts.FolderExists: directories that are left empty on a local disk are taken not to exist, as on an object store.
- Base64, the JSON of an envelope, creation times, custom metadata and the version metadata calls of the artifact store.
- Engine.OneEngineForAll: `aclose` runs only when no call is under way.
- Engine.Database.GetEngine: by itself and with builds that succeed; other threads and builds that fail are among the steps of `Engine.Apply`.
- The rest of the engine's configuration: pools, schemas, URLs, IAM.
- The choice of a root session and the final projection of the query: its roots are given, and an agent is never null.
- `ClusterConfig.from_env`, `_parse_port` and `_normalize_rpc_path`: finite configuration.
- Peers.SettingReadsBack: for at least one peer, since an empty setting means the defaults, and for a namespace, domain and scheme without commas.
- `calculate` and its expression evaluator: floating-point arithmetic throughout.
- Authentication of deciders, access control, migrations, deployment, telemetry, the feedback route, secrets, documents and the resolver.
