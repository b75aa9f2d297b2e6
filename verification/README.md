# Verified models of the winfsr driver's audits, build checks and request table

winfsr is a user-mode file system stack for Windows: a kernel driver that exchanges
requests with a user-mode provider over shared rings. Much of its assurance rests on
programs that read other programs: an auditor that bounds kernel stack use, a gate that
decides which code production can reach, a build script that reads the gate's
attestation, and a packager that checks what it ships. Below them sits the driver's
request table, which must never confuse two requests whatever the provider sends.

This project models those parts in Dafny and proves what they promise:

- **Stack chains** (`StackChain`, `Postorder`, `ChainBounds`, `ChainExamples`,
  `StackAudit`): the memoised depth-first walk that charges a root with its deepest call
  chain. The reported path is real and its frames add up to the total. The total bounds
  every chain when recursion is entered through one function only. It does not in general:
  a concrete call graph is under-reported, and the exact condition for all frame
  measurements is proved, stated on the depth-first postorder of the call graph alone.
- **The production gate** (`MentionGraph`, `ProductionGate`, `GateRows`, `AliasSearch`):
  exact reachability, shortest routes, counted direct calls, closed rosters of callers,
  forbidden text, and a verdict that passes if and only if the rosters are admissible and
  every row holds. Merging definitions of one name hides no route.
- **Conditional compilation** (`CfgTree`, `CfgParser`, `CfgDecisions`, `CfgAttributes`,
  `CfgErasure`): a parser that accepts exactly the printed syntax, a simplifier that
  preserves truth, an enumeration that finds exactly the attainable values, and the gate's
  independent three-valued reading of the same tokens, which the simplifier always
  confirms. What the auditor erases is in no production configuration, and how much of
  what is in none it erases is decided exactly.
- **Blanking source text** (`Blanker`, `BlankerTotal`): what becomes of every text there
  is. Comments of any nesting and the contents of terminated literals vanish in place, and
  brace matching on the result speaks about the original text. Of a raw string that never
  ends, the last characters stay, as many as its terminator would have; when that leaves
  nothing visible is decided exactly.
- **Identities and records** (`SourceIdentity`, `TestRecords`, `Sorting`, `Orders`): the
  byte stream that is hashed determines its roots, file names and file contents, whatever
  the roots are called and in whatever order they are given; when two platforms agree on it
  is decided exactly. A test report is read back from any output that prints it, blank lines
  included, and determines its runs exactly when no test bears the name of the result
  record.
- **Build inputs** (`Attestation`, `Capabilities`, `Features`, `FeatureSelection`): the
  array reader of the build script accepts exactly its layouts, and reads back what the
  auditor wrote exactly when the field's name occurs nowhere else. The capability bundle is
  decided exactly, and ABI 2.1 feature selection is the greatest eligible set.
- **Packages** (`Archive`): what the archive writer emits, and exactly when the verifier
  accepts it.
- **The request table** (`RequestTable`, `RequestRuns`, `RequestKeys`, `RequestDrain`,
  `RequestHistory`, `RequestLedger`, `RequestRefusals`, `RequestTableObject`): a state
  machine over arbitrary operations with arbitrary tokens. No request id is issued or
  captured twice in any run, every owner is conserved, a released key is dead for ever, a
  completion once disposed of is refused for ever, and draining can always hand every owner
  back. Two independent readings decide what every operation answers: a journal, told from
  the run alone, of the requests cancelled and the phase each was last given, and a ledger
  of the live requests by key and the receipts still to be redeemed. The table itself is a
  class whose valid states are those some run reaches; its methods are specified by ledger
  and journal: when each succeeds, which entries it changes, and what each error means.

`Outcomes`, `Paths`, `Sequences` and `Powers` hold shared definitions. `dafny verify
dfyconfig.toml` checks the whole project.

Modelling decisions: names are `string`s; bytes are integers below 256; 64-bit words are
integers below 2^64 with bitwise operators defined by recursion; Python dictionaries are
`map`s, and places where their order matters are sequences. Hash functions, JSON and zip
encoding, case folding and regular expressions are parameters or are left out, as listed
at the end. The pieces of text a regular expression finds are inputs. Exceptions and
error returns are `Result`, `Option` or verdict datatypes.

Where a property one would expect of the code is false, the code is modelled as it is, a
lemma gives an input that breaks the property, and another states exactly when it holds:

- the stack total bounds every chain: `ChainExamples.TwoEntryRecursionUnderReported`,
  `ChainBounds.ExactForAllFramesIffCovered`;
- a test report determines its runs: `TestRecords.ResultNameCollidesInOutput`,
  `TestRecords.FaithfulIffNoResultName`;
- what the archive writer emits is accepted: `Archive.CaseAloneIsRefused`,
  `Archive.BuiltVerifiesIff`;
- an unterminated literal vanishes: `BlankerTotal.EndlessRawStays`,
  `BlankerTotal.EndlessRawVanishesIff`;
- what the auditor writes is read back: `Attestation.RowNamedLikeItsField`,
  `Attestation.DocumentIsReadIff`;
- an item never compiled is erased: `CfgErasure.TwoConditionsRemoveTogether` and
  `CfgErasure.CrowdIsKept`, `CfgErasure.ErasesExactly` with
  `CfgErasure.ErasedIffEnumerable`;
- a tree has one source identity on every platform: `SourceIdentity.PlatformsDisagree`,
  `SourceIdentity.PlatformsAgreeIff`.

A remark on source identities: the framing of the byte stream would not by itself tell a
root named "files" from the marker in front of the files
(`SourceIdentity.FramingAloneCollides`, `SourceIdentity.InjectiveIffNoFilesRoot`). The
sorted names do, because the domain always holds "driver/Cargo.lock".

## Model

| member | source | states |
|---|---|---|
| StackAudit.ChainWalk.constructor | driver/scripts/audit_c4_stack.py:755-783 | a walk starts with an empty memo over the direct calls joined with the declared indirect ones |
| StackAudit.ChainWalk.Visit | driver/scripts/audit_c4_stack.py:785-803 | the recursive walk with its mutated memo computes the recursive specification: a callee on the stack costs nothing, a memoised one is reused, and finished functions are recorded in order |
| StackAudit.ChainWalk.DeepestCallee | driver/scripts/audit_c4_stack.py:790-797 | the loop over sorted callees keeps the first strictly deepest one |
| StackAudit.MeasureChain | driver/scripts/audit_c4_stack.py:755-805 | the reported path is a real non-repeating call path whose frames sum to the total; every reachable function lies on some path within the total; with single-entry recursion no non-repeating path from the root exceeds it |
| StackChain.WalkKeeps | driver/scripts/audit_c4_stack.py:785-803 | every call of the walk keeps the memo balanced and closed under callees not cut by recursion, and never changes an entry |
| StackChain.ScanKeeps | driver/scripts/audit_c4_stack.py:791-797 | the callee loop keeps the same invariant and returns the deepest of what it saw |
| StackChain.WalkCompletes | driver/scripts/audit_c4_stack.py:798-805 | after the walk, the memo with the root entered last covers a callee-closed set, stays balanced, and every function in it but the root has a caller finished later |
| StackChain.PathGenuine | driver/scripts/audit_c4_stack.py:790-803 | the path of every memo entry is a call path charged frame by frame with sum equal to its bytes |
| StackChain.KeptBounded | driver/scripts/audit_c4_stack.py:790-803 | a path that was never cut costs no more than the memo entry of its first function |
| ChainBounds.TotalIsReportedPath | driver/scripts/audit_c4_stack.py:798-805 | the total is exactly the sum of the frames on the reported path from the root |
| ChainBounds.TotalBoundsKept | driver/scripts/audit_c4_stack.py:790-803 | the total bounds every uncut path from the root, for any frame measurement |
| ChainBounds.FinishOrderFixed | driver/scripts/audit_c4_stack.py:785-803 | the order in which functions are finished is the depth-first postorder of the call graph, so what is cut never depends on frame sizes |
| ChainBounds.EveryReachableCharged | driver/scripts/audit_c4_stack.py:755-805 | every function reachable from the root is on a non-repeating path that the total covers |
| ChainBounds.CutTargetDominates | driver/scripts/audit_c4_stack.py:786-787 | with single-entry recursion, a call is only cut towards a function that lies on every route to the caller |
| ChainBounds.SingleEntryExact | driver/scripts/audit_c4_stack.py:755-805 | if each cycle is entered through one function, no non-repeating path from the root costs more than the total |
| ChainBounds.AcyclicExact | driver/scripts/audit_c4_stack.py:755-805 | without mutual recursion the total is the deepest non-repeating chain |
| ChainBounds.ExactForAllFramesIffCovered | driver/scripts/audit_c4_stack.py:755-805 | the total is right for every frame measurement if and only if each non-repeating path from the root lies inside an uncut one |
| ChainExamples.TwoEntryRecursionUnderReported | driver/scripts/audit_c4_stack.py:785-805 | a graph whose recursion has two entries: the walk reports 11 bytes and a real chain needs 15 |
| StackAudit.DeclaredIndirectEdges | driver/scripts/audit_c4_stack.py:963-982 | the indirect edges are exactly those to internal targets with a symbol, declared for the profile, and no caller is listed without one |
| StackAudit.BoundsAreLimits | driver/scripts/audit_c4_stack.py:1006-1017 | the two bounds of a root are the frame and chain limits stated directly on the manifest: those of its last expansion record, and otherwise the ordinary ones |
| StackAudit.LimitsAreUnique | driver/scripts/audit_c4_stack.py:1006-1017 | a manifest decides one frame limit and one chain limit for a root |
| StackAudit.FrameFindings | driver/scripts/audit_c4_stack.py:1142-1153 | no finding if and only if every declared and linked root has a measured frame within its frame limit; every finding is justified, and every root that does not fit has one |
| StackAudit.ChainFindings | driver/scripts/audit_c4_stack.py:1155-1168 | no finding if and only if every declared and linked root fits the chain limit the manifest decides for it; every finding is justified, and every root that does not fit has one |
| StackAudit.NoFindingBoundsEveryChain | driver/scripts/audit_c4_stack.py:1006-1168 | a root without a finding and with single-entry recursion has no call chain, direct or declared indirect, above the limit its last expansion record states, or the ordinary one where it has none |
| MentionGraph.WalkEdges | driver/scripts/audit_c4_production_graph.py:2346-2349 | one node adds exactly its unseen successors to the work list and lists its edges in order |
| MentionGraph.ReachableFrom | driver/scripts/audit_c4_production_graph.py:2336-2350 | the result is exactly the set reachable from the roots, and the walked edges are exactly those leaving it |
| MentionGraph.DirectReaches | driver/scripts/audit_c4_production_graph.py:2072-2083 | true exactly when some target other than the start is reachable from it |
| MentionGraph.Expand | driver/scripts/audit_c4_production_graph.py:2361-2365 | expanding the head of the queue appends each unseen successor once, one step further |
| MentionGraph.HeadIsShortest | driver/scripts/audit_c4_production_graph.py:2353-2366 | the path at the head of the queue is no longer than any path from a root to any node not yet finished |
| MentionGraph.ShortestPath | driver/scripts/audit_c4_production_graph.py:2353-2366 | empty exactly when the target is unreachable, and otherwise a route from a root that no route beats in length |
| ProductionGate.BuildGraph | driver/scripts/audit_c4_production_graph.py:2314-2333 | an edge leads to each other defined name that some body of the name mentions, and nowhere else; the nodes are the defined names; definitions list every file in order |
| ProductionGate.FilesCount | driver/scripts/audit_c4_production_graph.py:2314-2333 | a name has as many definitions as bodies bear it |
| ProductionGate.FilesAt | driver/scripts/audit_c4_production_graph.py:2314-2333 | each of them is listed with its file, in the order of the bodies |
| ProductionGate.MergingHidesNoRoute | driver/scripts/audit_c4_production_graph.py:2239-2333 | every call route between individual definitions is a route between their names in the merged graph |
| ProductionGate.RosterRefusal | driver/scripts/audit_c4_production_graph.py:2460-2577 | rosters are accepted exactly when the roots equal the advertised set, every root and staged name is defined once, and both tables of excused names are still true |
| ProductionGate.RosterRefusals | driver/scripts/audit_c4_production_graph.py:2460-2577 | each refusal says exactly which condition is the first that fails: no roots, roots other than the advertised, a root or staged name undefined or defined twice, a stale count, a stale caller |
| ProductionGate.StagedViolations | driver/scripts/audit_c4_production_graph.py:2617-2620 | each reachable staged name is reported with a shortest route, and nothing else is |
| ProductionGate.RequiredViolations | driver/scripts/audit_c4_production_graph.py:2626-2634 | refused exactly when some required name is not defined once, and then such a name is given with what is wrong; otherwise exactly the unreachable ones are reported |
| ProductionGate.ForbiddenViolations | driver/scripts/audit_c4_production_graph.py:2636-2640 | forbidden names are reported exactly when defined or reachable |
| ProductionGate.EdgeViolations | driver/scripts/audit_c4_production_graph.py:2654-2657 | forbidden edges are reported exactly when present |
| GateRows.DirectViolations | driver/scripts/audit_c4_production_graph.py:1687-1766 | no violation if and only if each row's caller calls its callee exactly as often as stated, and alone where the row says so; every violation tells the truth about one of the rows, and every failing row has one |
| GateRows.RosterViolations | driver/scripts/audit_c4_production_graph.py:1769-1872 | no violation of one closed roster if and only if its callers call exactly as often as listed, nobody else does, and no mention escapes being a call |
| GateRows.AllRosterViolations | driver/scripts/audit_c4_production_graph.py:1769-1872 | the same over all rosters; every violation is real for some row, and every failing row has one |
| GateRows.ContainsIffOccurs | driver/scripts/audit_c4_production_graph.py:2651 | the substring test holds exactly when the text has the needle at some position |
| GateRows.HitsCount | driver/scripts/audit_c4_production_graph.py:2720-2729 | one file is listed for each source that has the name |
| GateRows.HitAt | driver/scripts/audit_c4_production_graph.py:2720-2729 | it is the file of that source, and they are listed in the order of the sources |
| GateRows.TextViolations | driver/scripts/audit_c4_production_graph.py:2647-2652 | no violation if and only if no forbidden text occurs in any production source; exactly the files that have one are named with it |
| GateRows.ZeroRosterViolations | driver/scripts/audit_c4_production_graph.py:2688-2729 | no violation if and only if no retired name occurs in the corpus; exactly the names that do are reported, each with the files that have it in order |
| GateRows.RowViolations | driver/scripts/audit_c4_production_graph.py:2579-2671 | these rows have no violation if and only if all of them hold, the retired names being absent from the production text and from the named manifests; every violation is real, and every failing row has one |
| ProductionGate.NoViolationIffHolds | driver/scripts/audit_c4_production_graph.py:2443-2685 | with complete and real violations, there is none if and only if every row holds |
| ProductionGate.EvaluateGate | driver/scripts/audit_c4_production_graph.py:2443-2685 | the gate passes if and only if its rosters are admissible, every row about the graph holds and every row about calls and text holds; it judges exactly admissible rosters; in both lists every violation is real and every failing row has one |
| ProductionGate.PassingGateIsSound | driver/scripts/audit_c4_production_graph.py:2579-2620 | after a pass, no chain of calls through any definitions leads from a root's definition to a staged one |
| AliasSearch.FoundIsReachable | driver/scripts/audit_c4_stack.py:1761-1774 | a positive answer comes from an alias chain that ends in a fixed-domain value |
| AliasSearch.PathIsFollowed | driver/scripts/audit_c4_stack.py:1761-1774 | every such chain that avoids the visited aliases is found |
| AliasSearch.FixedDomainIffReachable | driver/scripts/audit_c4_stack.py:1761-1774 | the search with its visited set answers yes exactly when some alias chain reaches a fixed-domain value |
| CfgParser.Parse | driver/scripts/audit_c4_stack.py:1338-1383 | the recursive parser with its argument loop computes the specified tree and stopping position on every token sequence |
| CfgParser.ParsePrinted | driver/scripts/audit_c4_stack.py:1338-1383 | parsing any printed expression, anywhere in a token sequence, returns its tree and stops right behind it |
| CfgParser.ParsedIsPrinted | driver/scripts/audit_c4_stack.py:1338-1383 | whatever the parser accepts is the printed form of a legal expression with that tree |
| CfgDecisions.PrintedParses | driver/scripts/audit_c4_stack.py:1451-1460 | a printed expression parses as a whole |
| CfgDecisions.ParsesIffPrinted | driver/scripts/audit_c4_stack.py:1451-1460 | tokens parse to a tree if and only if they print a legal expression that denotes it |
| CfgTree.SimplifyKeepsTruth | driver/scripts/audit_c4_stack.py:1387-1405 | simplification with the test atom off preserves the truth value under every assignment |
| CfgTree.EvaluateIsTruth | driver/scripts/audit_c4_stack.py:1423-1435 | the evaluator agrees with the truth value on assignments that agree on the collected atoms |
| CfgTree.MaskExists | driver/scripts/audit_c4_stack.py:1437-1448 | each assignment of the atoms is selected by some bit mask in range |
| CfgTree.ValuesOverMasks | driver/scripts/audit_c4_stack.py:1437-1448 | the mask loop, with its early exit, finds exactly the attainable truth values |
| CfgTree.ValuesWithoutTest | driver/scripts/audit_c4_stack.py:1386-1448 | every attainable value is reported; nothing else is, up to the atom limit; above it both values are |
| CfgAttributes.ExpressionValues | driver/scripts/audit_c4_stack.py:1451-1460 | both values for text that does not parse; otherwise all attainable values, and no other unless the simplified tree has more atoms than the limit |
| CfgAttributes.AttributeIsTestOnly | driver/scripts/audit_c4_stack.py:1479-1500 | an item is erased if and only if one condition alone excludes it, under a condition that always holds where there is one, and neither has more open atoms than the limit; an erased item is compiled under no assignment without the test configuration; every parseable attribute that the gate decides to be false is erased |
| CfgErasure.SingleConditionIsExact | driver/scripts/audit_c4_stack.py:1479-1500 | with at most one applied condition, an item is compiled under no assignment if and only if one condition excludes it alone |
| CfgErasure.ErasedIffEnumerable | driver/scripts/audit_c4_stack.py:1437-1500 | a never-compiled item with at most one applied condition is erased if and only if its conditions parse and none has more open atoms than the limit |
| CfgErasure.CrowdIsKept | driver/scripts/audit_c4_stack.py:1437-1500 | for every n, one condition over n atoms that contradicts itself: the item is never compiled, and it is erased if and only if n is within the limit |
| CfgErasure.ClosedIsErased | driver/scripts/audit_c4_stack.py:1386-1500 | where no atom stays open, every never-compiled item is erased, however many conditions it applies |
| CfgErasure.ErasesExactly | driver/scripts/audit_c4_stack.py:1386-1500 | for all k and n: every parseable never-compiled item with at most k applied conditions of at most n open atoms is erased if and only if n is zero, or k is at most one and n within the limit |
| CfgErasure.TwoConditionsRemoveTogether | driver/scripts/audit_c4_stack.py:1479-1500 | an attribute that applies two opposite conditions: the item is never compiled, neither condition excludes it alone, and it is not erased |
| CfgDecisions.SplitInner | driver/scripts/audit_c4_production_graph.py:1875-1900 | splitting the inside of a group at top-level commas recovers its printed arguments |
| CfgDecisions.KleenePrinted | driver/scripts/audit_c4_production_graph.py:970-988 | the gate's three-valued reading of printed tokens is the three-valued value of the expression |
| CfgDecisions.DecidedReading | driver/scripts/audit_c4_production_graph.py:970-988 | on any tokens at all, a decided value is the value under every reading of the conditions the gate cannot decide |
| CfgDecisions.DecidesIffSettled | driver/scripts/audit_c4_production_graph.py:970-988 | a group of conditions is decided exactly when every way of filling in the undecided ones gives the same value |
| CfgAttributes.DecidedSimplifies | driver/scripts/audit_c4_production_graph.py:970-988 | what the three-valued reading decides, the other auditor's simplifier decides alike |
| CfgAttributes.DecidedIsTruth | driver/scripts/audit_c4_production_graph.py:970-988 | a decided value is the truth value under every assignment without the test configuration |
| CfgAttributes.GateFalseHasFalsePart | driver/scripts/audit_c4_production_graph.py:991-1017 | a conditional attribute is decided false only when its condition is decided true and an applied condition false |
| CfgAttributes.GateDecidesIffSettled | driver/scripts/audit_c4_production_graph.py:991-1017 | a conditional attribute is refused exactly when it applies nothing, and otherwise decided exactly when every filling of its undecided conditions keeps the item alike, or removes it alike |
| CfgAttributes.GateDecisionSound | driver/scripts/audit_c4_production_graph.py:991-1017 | decided false means never compiled, decided true means always compiled |
| CfgAttributes.GateDecisionSoundForAnyText | driver/scripts/audit_c4_production_graph.py:991-1017 | the same for any text, parseable or not, under every reading of what the gate leaves open |
| Blanker.BlankOnlyBlanks | driver/scripts/audit_c4_production_graph.py:817-913 | each character survives or becomes a space, and newlines stay exactly where they were |
| Blanker.BlankIsLexical | driver/scripts/audit_c4_production_graph.py:817-913 | the text of any legal sequence of lexemes is blanked lexeme by lexeme: nested comments to their matching close, raw strings to their own terminator, only delimiters of literals kept |
| BlankerTotal.EveryText | driver/scripts/audit_c4_production_graph.py:817-913 | every text is legal lexemes, blanked one by one, followed by at most one comment or literal that has no end |
| BlankerTotal.OthersStart | driver/scripts/audit_c4_production_graph.py:838-911 | a text that opens no block comment, string, escaped character or raw string starts with a legal lexeme |
| BlankerTotal.EndlessOpens | driver/scripts/audit_c4_production_graph.py:838-911 | what has no end opens a block comment, a string, an escaped character or a raw string, so the following cases are all there are |
| BlankerTotal.EndlessCommentIsBlanked | driver/scripts/audit_c4_production_graph.py:845-862 | a block comment without its matching close is blanked to the end of the text |
| BlankerTotal.EndlessLiteralIsBlanked | driver/scripts/audit_c4_production_graph.py:879-903 | a string or escaped character without a closing quote is blanked behind its opening quote |
| BlankerTotal.EndlessRawKeepsItsEnd | driver/scripts/audit_c4_production_graph.py:864-877 | a raw string without its terminator keeps its opening and, unblanked, as many last characters as the terminator has |
| BlankerTotal.EndlessRawVanishesIff | driver/scripts/audit_c4_production_graph.py:864-877 | everything behind its opening is blanked if and only if those last characters are spaces or newlines |
| BlankerTotal.EndlessRawStays | driver/scripts/audit_c4_production_graph.py:864-877 | the unterminated raw string `r"x` is not blanked at all |
| Blanker.BlankSpan | driver/scripts/audit_c4_production_graph.py:829-832 | blanking in place changes exactly the characters of the span other than newlines |
| Blanker.RangeAt | driver/scripts/audit_c4_production_graph.py:829-832 | of a span, exactly the characters other than newlines become spaces |
| Blanker.OffsetIsFirst | driver/scripts/audit_c4_production_graph.py:873 | the terminator of a raw string is looked for at its first occurrence |
| Blanker.ScanBlock | driver/scripts/audit_c4_production_graph.py:845-862 | the nesting counter stops at the matching close or the end of the text |
| Blanker.NextSpan | driver/scripts/audit_c4_production_graph.py:834-911 | one turn of the scanner finds the specified span from any index |
| Blanker.BlankLiteralsAndComments | driver/scripts/audit_c4_production_graph.py:817-913 | the in-place scanner produces the specified blanking of the whole text |
| Blanker.MatchingBrace | driver/scripts/audit_c4_production_graph.py:916-932 | the first position that closes the opening brace, or -1 when there is none; the depth is positive in between |
| Blanker.DepthIsCount | driver/scripts/audit_c4_production_graph.py:921-930 | the depth is the number of opening braces less that of closing ones |
| Blanker.BraceOfOriginal | driver/scripts/audit_c4_production_graph.py:817-932 | a brace in the blanked text is that brace of the original |
| SourceIdentity.Feed | driver/scripts/audit_c4_production_graph.py:776-799 | the update calls feed exactly the specified byte stream, with the platform separator of the roots replaced by a slash |
| SourceIdentity.FeedIdentity | driver/scripts/audit_c4_production_graph.py:776-799 | the roots are sorted as the platform spells them and then fed |
| SourceIdentity.RootOrderIrrelevant | driver/scripts/audit_c4_production_graph.py:785 | the order in which roots are given does not show |
| SourceIdentity.SlashedBytes | driver/scripts/audit_c4_production_graph.py:786 | feeding a root turns exactly its separators into slashes, so none but a slash is left |
| SourceIdentity.SpelledBack | driver/scripts/audit_c4_production_graph.py:786 | roots spelled with backslashes on one platform and with slashes on another are fed alike |
| SourceIdentity.LittleAt | driver/scripts/audit_c4_production_graph.py:797 | byte i of a length weighs 256 to the power of i |
| SourceIdentity.SmallStream | driver/scripts/audit_c4_production_graph.py:776-799 | the bytes fed for one root and one file, written out |
| SourceIdentity.LiteralsSpelled | driver/scripts/audit_c4_production_graph.py:784-788 | the marker bytes spell the names they stand for |
| SourceIdentity.IdentityUnique | driver/scripts/audit_c4_production_graph.py:776-799 | equal streams mean equal roots, file names and file contents, for all sorted roots under either separator and all sorted domains with "driver/Cargo.lock" |
| SourceIdentity.PlatformsDisagree | driver/scripts/audit_c4_production_graph.py:785-786 | roots "a/b" and "a0": the platform that spells them with backslashes feeds other bytes than the one that spells them with slashes |
| SourceIdentity.PlatformsAgreeIff | driver/scripts/audit_c4_production_graph.py:785-786 | two such platforms feed the same bytes for a tree if and only if its sorted roots stay sorted when spelled with backslashes |
| TestRecords.CanonicalTestRecords | driver/scripts/audit_c4_production_graph.py:2866-2912 | the line loop returns the canonical form and passed total of the sections read, or the first error; the members below say what those are |
| TestRecords.OutcomeIgnoresEmpty | driver/scripts/audit_c4_production_graph.py:2866-2912 | empty lines make no difference, wherever they stand |
| TestRecords.RefusedIff | driver/scripts/audit_c4_production_graph.py:2866-2912 | an output is refused with an error if and only if some line is that fault behind lines without one, or the output ends inside a run |
| TestRecords.OneSection | driver/scripts/audit_c4_production_graph.py:2866-2912 | the form of one run is its tests sorted by name and then its result record, and its total is what that record says |
| TestRecords.SectionsAddUp | driver/scripts/audit_c4_production_graph.py:2866-2912 | forms of several runs follow each other, and their totals add up |
| TestRecords.ReadPrinted | driver/scripts/audit_c4_production_graph.py:2866-2912 | reading the output of any runs recovers each run's tests and counts |
| TestRecords.ReadOutput | driver/scripts/audit_c4_production_graph.py:2866-2912 | so does reading any output that prints them with empty lines in between |
| TestRecords.SameRunsSameForm | driver/scripts/audit_c4_production_graph.py:2866-2912 | the order in which a run reports its tests does not show in the form |
| TestRecords.SameRunsSameOutcome | driver/scripts/audit_c4_production_graph.py:2866-2912 | two outputs of the same runs, whatever their empty lines and the order of tests, are read alike |
| TestRecords.CanonicalUnique | driver/scripts/audit_c4_production_graph.py:2866-2912 | equal forms mean equal verdicts, statuses and counts section by section, when no test bears the result record's name |
| TestRecords.ResultNameCollides | driver/scripts/audit_c4_production_graph.py:2866-2912 | with a test of that name, two reports with different passed totals share a form |
| TestRecords.ResultNameCollidesInOutput | driver/scripts/audit_c4_production_graph.py:2866-2912 | the two printed outputs, and what reading each returns: one form, totals 1 and 2 |
| TestRecords.FaithfulIffNoResultName | driver/scripts/audit_c4_production_graph.py:2866-2912 | the form determines the report for a set of test names if and only if the result name is not one of them |
| TestRecords.PassedByIndex | driver/scripts/audit_c4_production_graph.py:2866-2912 | equal reports have equal passed totals |
| Sorting.SortStable | driver/scripts/audit_c4_production_graph.py:2866-2912 | sorting by name keeps the order of records with the same name |
| Sorting.OrderIrrelevantIffConsistent | driver/scripts/audit_c4_production_graph.py:2866-2912 | the sorted form is independent of the input order if and only if records with one name are equal |
| Orders.NameLeIff | driver/scripts/audit_c4_production_graph.py:2866-2912 | names are ordered by code point at their first difference, a prefix first |
| Attestation.ReadPrinted | driver/fsring-core/build.rs:372-438 | a printed list of tokens is read back, whatever whitespace lies between them |
| Attestation.ArrayFieldIffPrinted | driver/fsring-core/build.rs:372-453 | the reader returns a list if and only if the text holds the quoted key once and behind it that list in some layout |
| Attestation.JsonArrayIsRead | driver/scripts/audit_c4_production_graph.py:3062-3065 | the array the auditor writes is read back by the build script's array reader, whatever follows |
| Attestation.PlacedIsReadIff | driver/fsring-core/build.rs:372-438 | an array written behind an occurrence of the quoted key is what the field reader returns if and only if its rows are tokens within the row limit, that occurrence is the first, no row bears the key's name, and the rest does not mention it |
| Attestation.DocumentIsReadIff | driver/fsring-core/build.rs:372-438 | the same for a whole document with arbitrary text before and behind the field |
| Attestation.RowNamedLikeItsField | driver/fsring-core/build.rs:372-438 | a "requiredGates" field with a row of that name is refused as repeated |
| Attestation.ReadValueAt | driver/fsring-core/build.rs:394-436 | one turn of the loop either answers or moves on to a later position with the same final reading |
| Attestation.SkipAsciiWhitespace | driver/fsring-core/build.rs:440-444 | the cursor stops at the first character that is not whitespace |
| Attestation.RequireByte | driver/fsring-core/build.rs:446-453 | the cursor moves past the expected byte or an error is returned |
| Attestation.Alphabet | driver/fsring-core/build.rs:404-444 | the characters of a token, and those that count as whitespace |
| Attestation.ComplaintFits | driver/fsring-core/build.rs:394-436 | behind any rows already read, each way a row can be wrong gets its own error |
| Attestation.RowLimit | driver/fsring-core/build.rs:394-436 | 64 rows are read, and one more is refused |
| Attestation.StringArrayField | driver/fsring-core/build.rs:372-438 | the cursor loop computes the specified reading, with its row limit and each of its errors, and returns tokens only |
| Capabilities.RepeatsUnrelated | driver/fsring-core/build.rs:190-211 | true exactly when some row outside the known ones occurs twice in the two rosters together |
| Capabilities.ParseCapabilities | driver/fsring-core/build.rs:96-119 | succeeds exactly on a bundle of the active profile, always with the same bits; every error says exactly what is wrong and what was already found right |
| Capabilities.OutcomeDetermined | driver/fsring-core/build.rs:96-211 | at most one error fits given rosters, and none fits a bundle |
| Capabilities.BundlePermutes | driver/fsring-core/build.rs:96-211 | the order of either roster is irrelevant |
| Features.IntersectionBits | fsring-abi/src/features.rs:27-34 | the intersection holds exactly the features of both sets |
| Features.UnionBits | fsring-abi/src/features.rs:220-227 | the union holds exactly the features of either set |
| Features.WithoutBits | fsring-abi/src/features.rs:229-232 | clearing a bit removes exactly that feature, in the right word |
| Features.SubsetBits | fsring-abi/src/features.rs:23-25 | the masked word test is inclusion of feature sets |
| Features.SameBits | fsring-abi/src/features.rs:3-5 | sets with the same features are equal words |
| FeatureSelection.MaskAccepted | fsring-abi/src/features.rs:139-159 | a mask is accepted exactly when it has SECURITY, nothing unselectable, nothing outside the profile, and a matched restart pair |
| FeatureSelection.ProtocolNumbers | fsring-abi/src/features.rs:64-92 | the features each profile allows, by number: mapped I/O not on Windows 7 |
| FeatureSelection.OsNumbers | fsring-abi/src/features.rs:71-100 | the capabilities each profile may detect, by number |
| FeatureSelection.MaskErrors | fsring-abi/src/features.rs:139-159 | each refusal of a mask says exactly what is the first thing wrong with it |
| FeatureSelection.SelectMeaning | fsring-abi/src/features.rs:161-218 | selection succeeds exactly when negotiation is possible under the numbers of the profile, and returns the best features and the detected capabilities |
| FeatureSelection.SelectErrors | fsring-abi/src/features.rs:161-218 | each refusal says exactly which condition is the first that fails |
| FeatureSelection.Windows7Selection | fsring-abi/src/features.rs:161-218 | no selection on Windows 7 has mapped I/O or detects a capability |
| FeatureSelection.FullOffer | fsring-abi/src/features.rs:161-218 | on Windows 10 a full offer with both memory protections is selected in full |
| FeatureSelection.SelectionIsGreatest | fsring-abi/src/features.rs:161-218 | the selection is the greatest eligible set, includes everything required and SECURITY, has no unselectable feature and a matched restart pair |
| FeatureSelection.SelectionIsStable | fsring-abi/src/features.rs:161-218 | offering and requiring exactly what was selected selects it again |
| FeatureSelection.SelectionIsMonotone | fsring-abi/src/features.rs:161-218 | offering, implementing or probing more never loses a selected feature |
| Archive.PrefixIsParent | scripts/package_artifacts.py:108-114 | each proper prefix of a name's components is a parent directory of it |
| Archive.ParentIsPrefix | scripts/package_artifacts.py:108-114 | each parent directory of a name is such a prefix |
| Archive.DirectorySet | scripts/package_artifacts.py:108-114 | the directories collected are exactly the parents of the entries |
| Archive.WriteArchive | scripts/package_artifacts.py:125-134 | the members written are the sorted directories, then the sorted files with their data |
| Archive.BuiltIsCanonical | scripts/package_artifacts.py:125-134 | the archive does not depend on the order of the entries |
| Archive.ParentsFirst | scripts/package_artifacts.py:125-134 | every parent directory of a member is a member before it |
| Archive.VerifyIffAcceptable | scripts/package_artifacts.py:136-189 | the chain of checks passes if and only if every condition holds |
| Archive.RefusalMeaning | scripts/package_artifacts.py:136-189 | each refusal says exactly which condition is the first that fails |
| Archive.SourceMapIsLast | scripts/package_artifacts.py:136-189 | of several source entries with one name the last one counts |
| Archive.AcceptedIsSource | scripts/package_artifacts.py:136-189 | an accepted archive has no duplicate members; each of its files holds the data of the last source entry of that name, and every source entry has its file |
| Archive.BuiltVerifiesIff | scripts/package_artifacts.py:108-189 | what the writer emits is accepted if and only if the required names are members, no forbidden one is, and the entries' names are distinct, fold apart together with their directories, are no directories themselves, and lie under the prefix with all their parents |
| Archive.CollidingNamesAreRefused | scripts/package_artifacts.py:125-189 | distinct entries whose names, with their directories, do not fold apart are written and then refused as a case collision |
| Archive.CaseAloneIsRefused | scripts/package_artifacts.py:125-189 | two entries that differ in case alone are such an input |
| Archive.OneComponentPrefix | scripts/package_artifacts.py:108-114 | with a one-component prefix the parents lie under it whenever the entries do |
| RequestTable.RawRoundTrip | fsring-abi/src/ids.rs:16-41 | an id of 40 and 24 bits packs into a 64-bit word, and unpacking returns it |
| RequestTable.RawCovers | fsring-abi/src/ids.rs:16-41 | every 64-bit word is the packed form of exactly such an id |
| RequestTableObject.TryNew | driver/fsring-core/src/reqtab.rs:658-723 | a table is made exactly in fitting pristine storage while table ids last; each error says exactly what is wrong; the table is valid and empty, and its non-zero id is not handed out again |
| RequestTableObject.ApplicationTable.constructor | driver/fsring-core/src/reqtab.rs:697-722 | a new table is valid, at the start of a run with all slots free and linked in order, and its ledger and journal are empty |
| RequestTableObject.ApplicationTable.ValidateKey | driver/fsring-core/src/reqtab.rs:2182-2214 | a key is valid exactly while its request is live; otherwise the error says whether the table is another, the slot is none, another birth lives there, or nobody does |
| RequestTableObject.ApplicationTable.AdmitApplication | driver/fsring-core/src/reqtab.rs:725-796 | succeeds exactly when the table is active and some slot is free; then one prepared, uncancelled request with this owner and phase is live under a key and an id never used, and a refusal keeps nothing |
| RequestTableObject.ApplicationTable.MarkApplicationVisible | driver/fsring-core/src/reqtab.rs:894-916 | exactly a prepared request of an active table becomes visible, under an id issued in this session and not captured |
| RequestTableObject.ApplicationTable.BeginApplicationPhase | driver/fsring-core/src/reqtab.rs:939-977 | exactly a request between phases gets the new phase and an id never issued before; when its ids have run out it is exhausted and the table asks for a new session |
| RequestTableObject.ApplicationTable.Cancel | driver/fsring-core/src/reqtab.rs:1742-1755 | succeeds exactly for live requests; the request is then cancelled, in the ledger and in the journal, and nothing else changes |
| RequestTableObject.ApplicationTable.Capture | driver/fsring-core/src/reqtab.rs:1022-1138 | whatever epoch, role and word a provider sends, it is accepted if and only if the word is the id of a visible request of this session in a role its phase allows; the token bears the opcode of the phase last begun, and the id was never captured before |
| RequestTableObject.ApplicationTable.Install | driver/fsring-core/src/reqtab.rs:1140-1204 | exactly the capture in progress under this identity and opcode gets its candidate |
| RequestTableObject.ApplicationTable.ValidateCandidate | driver/fsring-core/src/reqtab.rs:2253-2310 | a candidate is valid exactly while its request is live, captured and under the same id in this session |
| RequestTableObject.ApplicationTable.FinishDisposition | driver/fsring-core/src/reqtab.rs:2248-2319 | exactly a valid candidate is disposed of: its request stays live at the given point, and the captured identity is held no more |
| RequestTableObject.ApplicationTable.RetainApplication | driver/fsring-core/src/reqtab.rs:1273-1284 | unless draining, exactly a valid candidate leaves its request between phases; a refusal changes nothing |
| RequestTableObject.ApplicationTable.QuarantineApplication | driver/fsring-core/src/reqtab.rs:1299-1304 | also while draining, exactly a valid candidate leaves its request in quarantine; a refusal changes nothing |
| RequestTableObject.ApplicationTable.TakeOwner | driver/fsring-core/src/reqtab.rs:1383-1405 | the request of the slot is closed: exactly its owner goes to the caller, and the receipt with its key, epoch and id is owed |
| RequestTableObject.ApplicationTable.TerminalizeApplication | driver/fsring-core/src/reqtab.rs:1313-1406 | unless draining, exactly a valid candidate closes its request and hands its owner back; a refusal hands back nothing |
| RequestTableObject.ApplicationTable.WithdrawUnpublished | driver/fsring-core/src/reqtab.rs:1408-1453 | exactly a prepared request is closed and its owner handed back; its id was issued and never captured |
| RequestTableObject.ApplicationTable.TerminalizeFenced | driver/fsring-core/src/reqtab.rs:1821-1875 | exactly while fencing, and exactly a live cancelled request that is visible, between phases or exhausted, is closed and its owner handed back |
| RequestTableObject.ApplicationTable.ReclaimCompleted | driver/fsring-core/src/reqtab.rs:1609-1675 | exactly a receipt still owed is redeemed, once; then nothing is left of its request, and the slot is retired with its last id of the session and free otherwise |
| RequestTableObject.ApplicationTable.Fence | driver/fsring-core/src/reqtab.rs:1795-1801 | succeeds exactly on an active table, which is then fencing |
| RequestTableObject.ApplicationTable.RetainFenced | driver/fsring-core/src/reqtab.rs:1803-1819 | exactly a visible request of a fencing table is put between phases, and the word of its id can no longer be captured |
| RequestTableObject.ApplicationTable.FindUnresolved | driver/fsring-core/src/reqtab.rs:1953-1967 | the scan names the first live slot that a new session may not inherit |
| RequestTableObject.ApplicationTable.CarrySlots | driver/fsring-core/src/reqtab.rs:1977-2009 | the descending loop carries every slot over and links the free ones in ascending order |
| RequestTableObject.ApplicationTable.RebindSession | driver/fsring-core/src/reqtab.rs:1935-2028 | succeeds exactly behind a fence, with the next epoch, the same topology, idle control lanes and all requests resolved; the next session has the same requests under the same keys, without ids, and a refusal changes nothing |
| RequestTableObject.ApplicationTable.Drain | driver/fsring-core/src/reqtab.rs:2030-2032 | the table is draining, in the same run and with the same ledger |
| RequestTableObject.ApplicationTable.DrainNextApplication | driver/fsring-core/src/reqtab.rs:2034-2087 | the lowest request off the capture path is closed and its owner handed back; done is reported exactly when none is live, and then every owner ever admitted is back |
| RequestRuns.FreshTable | driver/fsring-core/src/reqtab.rs:697-722 | a new table's free list holds every slot once |
| RequestRuns.AdmitKeeps | driver/fsring-core/src/reqtab.rs:725-796 | admission keeps the table's invariant and issues an id never issued before |
| RequestRuns.BeginPhaseKeeps | driver/fsring-core/src/reqtab.rs:939-977 | a further phase keeps the invariant and issues an id never issued before |
| RequestRuns.CaptureKeeps | driver/fsring-core/src/reqtab.rs:1056-1085 | a captured id was issued and not captured before, and the invariant is kept |
| RequestRuns.ReleaseKeeps | driver/fsring-core/src/reqtab.rs:1383-1405 | releasing an owner keeps the invariant, conservation included |
| RequestRuns.ReclaimKeeps | driver/fsring-core/src/reqtab.rs:1609-1675 | reclaim keeps the free list exact and hides no id the slot has shown in this session |
| RequestRuns.RebindKeeps | driver/fsring-core/src/reqtab.rs:1935-2028 | the next session starts with an exact free list, no pending id, and all owners still held |
| RequestRuns.SessionAscends | driver/fsring-core/src/reqtab.rs:1969-2028 | a new session hands out its slots in ascending order, each from its first generation, retired ones included |
| RequestRuns.LastBackFirstOut | driver/fsring-core/src/reqtab.rs:1609-1675 | within a session the slot last given back is the next to be taken |
| RequestRuns.NextKeeps | driver/fsring-core/src/reqtab.rs:725-2087 | every operation with any arguments keeps the invariant |
| RequestRuns.RunKeeps | driver/fsring-core/src/reqtab.rs:725-2087 | so does every sequence of operations |
| RequestRuns.IdsNeverRepeat | driver/fsring-core/src/reqtab.rs:725-1138 | in every run no id of a session is issued twice, none is captured twice, and none is captured that was not issued |
| RequestRuns.PackedIdsNeverRepeat | fsring-abi/src/ids.rs:16-41 | so the non-zero 64-bit words a provider sees in one session are all different, and each unpacks to its id |
| RequestRuns.OwnersConserved | driver/fsring-core/src/reqtab.rs:725-2087 | in every run each admission of an owner is either live in exactly one slot or was handed back once |
| RequestRuns.CaptureIsFresh | driver/fsring-core/src/reqtab.rs:1022-1138 | in every reachable state a raw id is accepted only if it was issued in this session and never accepted before |
| RequestRuns.AdmitIff | driver/fsring-core/src/reqtab.rs:725-796 | in every reachable state admission succeeds exactly when the table is active and some slot is free, and reports exhaustion exactly when all slots are retired |
| RequestKeys.NextFollows | driver/fsring-core/src/reqtab.rs:725-2087 | after any operation a live slot was live under the same birth or was born under a new id; a terminal slot was live or terminal under the same birth |
| RequestKeys.DeadForever | driver/fsring-core/src/reqtab.rs:2182-2214 | a key whose request existed and is no longer live validates in no later state |
| RequestKeys.ReleasedForever | driver/fsring-core/src/reqtab.rs:1313-1453 | once a request is released its key is dead after every further run |
| RequestKeys.ReclaimedForever | driver/fsring-core/src/reqtab.rs:1609-1675 | once a receipt is reclaimed, no later state holds that request, live or terminal |
| RequestKeys.DeadIsRefused | driver/fsring-core/src/reqtab.rs:894-1875 | every operation that takes a key or token refuses a dead one, and reclaim refuses one that is gone |
| RequestKeys.NextHeld | driver/fsring-core/src/reqtab.rs:1022-1406 | after any operation, an identity under capture was under capture before or has just been captured |
| RequestKeys.SettledForever | driver/fsring-core/src/reqtab.rs:1140-1406 | a captured identity that is no longer held is held after no further run |
| RequestKeys.DisposedForever | driver/fsring-core/src/reqtab.rs:1273-1406 | retaining, quarantining or terminalizing a candidate settles its identity for ever |
| RequestKeys.SettledIsRefused | driver/fsring-core/src/reqtab.rs:1140-1406 | install, retain, quarantine and terminalize refuse every token with a settled identity, even while its key is alive |
| RequestDrain.DrainStep | driver/fsring-core/src/reqtab.rs:2034-2087 | one call empties one drainable slot, hands its owner back, and leaves slots with a capture alone |
| RequestDrain.DrainsEverything | driver/fsring-core/src/reqtab.rs:2034-2087 | after k calls exactly k drainable slots are gone and their owners, no others, are handed back |
| RequestDrain.DrainedReturnsEveryOwner | driver/fsring-core/src/reqtab.rs:2034-2087 | in every reachable draining state, completion is reported exactly when no slot is live, and then all owners ever admitted have been handed back |
| RequestDrain.DrainEnds | driver/fsring-core/src/reqtab.rs:2030-2087 | without a capture under way, draining ends after as many calls as there are drainable slots with every owner handed back |
| RequestDrain.DrainCanFinish | driver/fsring-core/src/reqtab.rs:1140-2087 | from every reachable draining state, captures under way included, some run of settling and draining steps ends the drain with every owner handed back |
| RequestHistory.NoteKeeps | driver/fsring-core/src/reqtab.rs:725-2087 | after every operation the slots still say what the journal of cancellations and phases says, and a spent slot has asked for a new session |
| RequestHistory.RunRecorded | driver/fsring-core/src/reqtab.rs:725-2087 | so in every state of every run |
| RequestHistory.NotedIsHistory | driver/fsring-core/src/reqtab.rs:725-1755 | the journal holds a key as cancelled exactly if some operation of the run cancelled it, and its phase is the last one given |
| RequestHistory.FlaggedIffCancelled | driver/fsring-core/src/reqtab.rs:1742-1755 | in every run a live request is flagged exactly if some operation cancelled it while it was live |
| RequestHistory.FenceReleasesIff | driver/fsring-core/src/reqtab.rs:1821-1875 | at the fence a request is handed back if and only if the table is fencing, the key is live and cancelled, and the request is visible, between phases or exhausted |
| RequestHistory.CaptureIsOfLatestPhase | driver/fsring-core/src/reqtab.rs:1022-1138 | a capture bears the opcode of the phase last given under its key, and other than by completion only a journaled phase is answered |
| RequestLedger.KeyMeaning | driver/fsring-core/src/reqtab.rs:2182-2214 | each verdict on a key is exactly one fact about the ledger |
| RequestLedger.AdmitMeaning | driver/fsring-core/src/reqtab.rs:725-796 | admission succeeds exactly when active with a free slot, and enters one prepared, uncancelled request with that owner and phase under a key never used |
| RequestLedger.PhaseMeaning | driver/fsring-core/src/reqtab.rs:939-977 | the next phase begins exactly between two phases of a live request of an active table while ids last, and enters the phase and a fresh id; the last id leaves the request exhausted |
| RequestLedger.CaptureMeaning | driver/fsring-core/src/reqtab.rs:1022-1138 | a word is captured if and only if it is the id of a visible request of this session, in a role its phase allows, and the table is not draining |
| RequestLedger.OneAnswers | driver/fsring-core/src/reqtab.rs:1056-1138 | no two live requests answer to the same word |
| RequestLedger.BetweenIsUnanswerable | driver/fsring-core/src/reqtab.rs:1803-1819 | a request put between phases leaves no word that could be captured for its old id |
| RequestLedger.InstallMeaning | driver/fsring-core/src/reqtab.rs:1140-1204 | a candidate is installed exactly for a capture in progress under the same identity and opcode |
| RequestLedger.CandidateMeaning | driver/fsring-core/src/reqtab.rs:2253-2310 | a candidate is good exactly while its request is live, captured and under the same id in this session |
| RequestLedger.ClosedEntry | driver/fsring-core/src/reqtab.rs:1383-1405 | a release moves the request from the live ones to the receipts owed, and hands its own owner out |
| RequestLedger.ReclaimMeaning | driver/fsring-core/src/reqtab.rs:1609-1675 | exactly the receipts owed are redeemed, once; the slot is retired with its last id of the session and free otherwise |
| RequestLedger.RebindMeaning | driver/fsring-core/src/reqtab.rs:1935-2028 | a session starts exactly behind a fence, with the next epoch, the same topology, idle control lanes and every request resolved; requests keep everything but their id and their exhaustion |
| RequestLedger.DrainMeaning | driver/fsring-core/src/reqtab.rs:2034-2087 | a drain releases the lowest request off the capture path, is done exactly when none is live, and is held up exactly when all are being captured |
| RequestLedger.QuarantinedUntilDrained | driver/fsring-core/src/reqtab.rs:1299-1304 | whatever is done short of draining, a quarantined request stays live, quarantined and with its owner |
| RequestLedger.DispositionsDiffer | driver/fsring-core/src/reqtab.rs:1273-1304 | a quarantined candidate is in quarantine, while a retained one may begin its next phase |
| RequestRefusals.KeyFaultIs | driver/fsring-core/src/reqtab.rs:2182-2214 | each error about a key is exactly one fact about the ledger |
| RequestRefusals.KeyOperations | driver/fsring-core/src/reqtab.rs:894-1819 | publishing, cancelling, withdrawing and retaining at the fence refuse with exactly the error for the first of mode, key and state that is wrong |
| RequestRefusals.FencedOperation | driver/fsring-core/src/reqtab.rs:1821-1875 | so does terminalizing at the fence |
| RequestRefusals.PhaseOperation | driver/fsring-core/src/reqtab.rs:939-977 | so does beginning a phase |
| RequestRefusals.AdmitRefusals | driver/fsring-core/src/reqtab.rs:725-796 | admission is refused as inactive, as exhausted when every slot is retired, or as full |
| RequestRefusals.IdFaultIs | driver/fsring-core/src/reqtab.rs:1056-1138 | each error about an id of the table is exactly one fact about the request or receipt of its slot |
| RequestRefusals.CaptureRefusals | driver/fsring-core/src/reqtab.rs:1022-1138 | each error of a capture is exactly one fact about the mode, the epoch, the word and the ledger |
| RequestRefusals.InstallRefusals | driver/fsring-core/src/reqtab.rs:1140-1204 | each error of an installation names exactly the first thing wrong with the token |
| RequestRefusals.CandidateRefusals | driver/fsring-core/src/reqtab.rs:2253-2310 | so does each error about a candidate |
| RequestRefusals.ReclaimRefusals | driver/fsring-core/src/reqtab.rs:1609-1675 | each error of a reclaim names exactly the first thing wrong with the receipt |
| RequestRefusals.RebindRefusals | driver/fsring-core/src/reqtab.rs:1935-2028 | each error of a rebind names exactly the first condition that fails |
| RequestRefusals.OpenRequestRefuses | driver/fsring-core/src/reqtab.rs:1953-1967 | of several unresolved requests the one in the lowest slot decides the error |

## Left out

- ChainBounds.SingleEntryExact: one way only; for one given frame measurement the total can be right by luck, so the converse is false, and the two-way statement is the one over all measurements.
- CfgAttributes.GateDecisionSound: speaks of attributes whose conditions parse, because other text has no truth value of its own; `GateDecisionSoundForAnyText` covers the rest under every reading.
- ProductionGate.EvaluateGate: denied ingresses, the roster pinned for one named gate, the shape checks of a manifest and the resolution of a row's names to definitions are not modelled; the index of direct calls and the production text are inputs.
- RequestTableObject.ApplicationTable.constructor: takes a number of slots that `TryNew` has checked against the storage.
- RequestTableObject.TryNew: the limits on rings and requests are those of a validated topology; which storage slots are pristine is an input, and the shared counter of table ids is passed in and out, so racing callers are not modelled.
- RequestTableObject.ApplicationTable.Capture: ids of the control lanes are reported as unassigned, because the lanes are not modelled.
- RequestTableObject.ApplicationTable.RebindSession: the state of the control lanes is an argument.
- RequestDrain.DrainCanFinish: says that a finishing run exists; it does not say that callers take it.
- The control lanes of the request table and the choice of a cancellation target, which repeat the application slots' discipline on fewer states.
- Ownership of the completion capability: tokens are plain values that any operation may receive at any time, which is more than Rust's move rules allow.
- The driver's other state machines (sessions, fences, paging, journals, rings), the provider and the Windows bindings.
- Stack frame extraction from disassembly, folding and alias findings, and the remaining manifest checks of the stack auditor.
- Text matching in both auditors: regular expressions, tokenising of conditions, removal of test-only items from text, and discovery of function bodies and call expressions; their results are inputs.
- Regular expressions of the fixed-domain search, which are a predicate argument.
- The order in which atoms are enumerated, and the printed keys that identify them; atoms are values.
- SHA-256, JSON and zip encodings, timestamps, permissions, symbolic links, case folding and all file access; folding is a function argument.
- The scalar field reader and the other checks of the build script, the historical profile parser, and code generation.
- The rest of the ABI crate: message layouts, limits and their validation.
