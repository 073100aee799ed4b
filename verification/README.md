# SAVK verification model

SAVK reads an operator contract written in a strict YAML subset, derives a graph of checks from it, runs the graph in
prerequisite order and folds the results into a report and an exit code. This project models that path and proves what
it is relied on for:

- **Engine** (`Graph`, `Cycles`, `Schedule`, `ScheduleOrder`, `Engine`, `Runs`, `RunTheorems`, `Verdict`). Cycle detection is exact; the
  schedule is a topological permutation that does not depend on the order of the input; a check is attempted exactly
  when everything it transitively waits for was attempted and passed; blocked checks never change the exit code.
- **Contract parser** (`Text`, `Utf8`, `Quoting`, `QuotingTheorems`, `Parser`, `LineConservation`, `Printer`,
  `RoundTrip`, `DocumentRoundTrip`, `ParsedTrees`, `EditDistance`, `Fields`). Printing is undone by the parser on every
  tree, with keys and strings plain or quoted in either style and any blank lines, comments and line ends between;
  backward backslash parity agrees with the forward escape decoder; successful parses conserve lines; the one-row
  dynamic programme is the edit distance, and that is a metric.
- **Graph builder** (`Contracts`, `Checks`, `CheckIds`, `Builder`, `BuilderTheorems`, `BuilderMembers`, `FailClosed`). Every declared value
  of a selected domain gets its check and nothing else does; the built graph is always one the engine accepts, although ids contain user-chosen names
  with dots; runs outside systemd attempt nothing but preflights.
- **Reports** (`CheckResults`, `Reports`, `Redaction`, `Truncation`). Canonical order, summary, exit code and UTF-8-safe
  truncation.
- **Accounts** (`AccountIndex`, `Accounts`, `AccountTheorems`). The one-pass index with ambiguity sets answers as the
  plain set of entries does, for every order of the lines.
- **Identity** (`Capabilities`, `KeyValues`, `Systemctl`, `Identity`, `Processes`, `IdentityRuns`,
  `IdentityQueries`, `IdentityVerdicts`). Capability
  masks compare exactly; under every interleaving of readers, also ones left running after a timeout, a verdict joins
  one systemctl output with a later read of the process it named.

Where the source works by changing things step by step, the model is a class or a method with a loop, proved equal to a
specification function; the theorems are about those functions. Strings are Dafny strings read as bytes, and the theorems
hold for all strings. `int` of the source has 64 bits. Reading files, running systemctl and the outcome of a collector are
parameters, so every theorem covers all of them. The outcome of a check is a function of its id; this loses nothing, as no
check is attempted twice (`RunTheorems.OneResultPerCheck`). `attempted` records the checks that were
not blocked and went to `runCheck`, which may still find the context over before it calls the collector; `queries` and
the log record the systemctl runs. The source has no such fields.

Three expectations about the source turn out to be false or conditional, and are stated that way:

- Truncation keeps UTF-8 valid on valid input, but not on every input. An ill-formed byte counts as the three bytes of
  the replacement character although it is one byte long, so it can be let in, and the cut can even fall inside the next
  character (`Truncation.DefaultLimitCanSplit`, at the limit the report uses). One call gives valid text exactly when the
  evidence is well formed throughout, or is cut and its first ill-formed byte, counted as three, no longer fits
  (`Truncation.TruncatedEvidenceIsValidIff`).
- Propagation keeps the exit code as long as collectors return one of the five statuses. A status outside them blocks its
  dependents as insufficient data without itself showing in the exit code; `Verdict.PropagationKeepsVerdictIff` says
  exactly when the codes differ, and `Verdict.UnknownStatusChangesVerdict` shows two checks for which they do.
- The caches of the identity observer do not always keep systemctl from being run twice for a service
  (`IdentityRuns.RacersAskTwice`). Over all runs it is run twice exactly when two readers of that service were at once
  between their missed lookup of the pid cache and their store into it (`IdentityQueries.AskedTwiceIffOverlap`). Readers
  of different services may overlap as they like.

## Model

| member | source | states |
|---|---|---|
| Cycles.DetectCycles | internal/engine/engine.go:105-145 | on every prerequisite-closed graph: no error if and only if no check reaches itself; an error's ids are a walk along prerequisites whose last id occurs in it before |
| Cycles.CycleDetector.Visit | internal/engine/engine.go:115-136 | one depth-first visit: keeps the three colours coherent with the stack and with a topological list of the finished ids, and finishes the id or returns a walk that closes a cycle |
| Schedule.PostOrderIsTopological | internal/engine/engine.go:84-102 | on an acyclic graph the post-order has every id once, each after all its prerequisites |
| Engine.Scheduler.Visit | internal/engine/engine.go:87-97 | the recursive closure takes its two variables where the functional visit takes them |
| Engine.IndexChecks | internal/engine/engine.go:56-69 | succeeds if and only if ids are non-empty and distinct, and then indexes every check; an error names an empty or repeated id |
| Engine.FindMissing | internal/engine/engine.go:71-78 | succeeds if and only if every prerequisite is a check; an error names a missing prerequisite and who asks for it |
| Engine.ValidateChecks | internal/engine/engine.go:55-103 | accepts exactly the graphs with non-empty distinct ids, closed under prerequisites and acyclic, and gives their schedule; an error names a real fault |
| RunTheorems.ScheduleIsTopologicalPermutation | internal/engine/engine.go:55-103 | the schedule is a permutation of the checks, every prerequisite strictly before its dependents |
| RunTheorems.ScheduleIgnoresInputOrder | internal/engine/engine.go:71-102 | acceptance and schedule are the same for every permutation of the input |
| ScheduleOrder.ScheduleFollowsByteOrder | internal/engine/engine.go:71-102 | a check precedes another only if some check that needs it is no greater in byte order than any check that needs the other |
| Runs.FindBlockingPrerequisite | internal/engine/engine.go:147-159 | finds the first prerequisite, in declared order, whose result is not PASS |
| RunTheorems.FirstBlockingMeans | internal/engine/engine.go:147-159 | none found if and only if all prerequisites passed; otherwise the named one is a prerequisite with that status |
| Runs.Run | internal/engine/engine.go:26-53 | fails exactly on graphs that validation rejects; otherwise its results are those of the run of the schedule, for every choice of outcomes |
| Runs.RunOrdered | internal/engine/engine.go:35-52 | the run loop, result by result, is the fold the theorems are about |
| RunTheorems.RunSettles | internal/engine/engine.go:39-50 | when a check's turn comes every prerequisite has a result, so the missing-result branch is never taken, and the decision still holds of the final results |
| RunTheorems.CheckSettles | internal/engine/engine.go:39-50 | in the final state each check has the result that the local rule gives it, and is attempted if and only if its direct prerequisites all passed |
| RunTheorems.OneResultPerCheck | internal/engine/engine.go:35-52 | exactly one result per check, under the check's own id, in schedule order; no collector is called twice |
| RunTheorems.VerdictsComeFromCollectors | internal/engine/engine.go:161-255 | a check passes or fails if and only if its collector was called and returned that; panics, timeouts and cancellations are errors; a blocked result names a prerequisite that did not pass and its status |
| RunTheorems.AttemptedReportsItsCollector | internal/engine/engine.go:177-296 | an attempted check reports what its collector returned, unchanged but for id and domain; after a panic, deadline or cancellation an error with the engine's reason, source and message |
| RunTheorems.BlockedNamesItsBlocker | internal/engine/engine.go:147-175 | a blocked check reports its first prerequisite that did not pass: the class of its status, the reason, the source and the message |
| RunTheorems.AttemptedIffAllBelowPassed | internal/engine/engine.go:39-50 | a check is attempted if and only if every check it transitively waits for was attempted and passed |
| RunTheorems.BlockedByAttempted | internal/engine/evaluator.go:5-14 | a blocked check goes back to an attempted check that did not pass, and carries the propagated class of that check's status |
| Verdict.BlockedResultHasCause | internal/engine/evaluator.go:5-14 | a blocked result is not applicable or undecided; if undecided, an attempted error or undecided result exists unless an unknown status blocks |
| Verdict.PropagationKeepsVerdict | internal/reporters/json.go:103-113 | when collectors return the five statuses, the exit code over all results is the exit code over the attempted checks alone |
| Verdict.PropagationKeepsVerdictIff | internal/reporters/json.go:103-113 | for any statuses, the two exit codes agree if and only if the attempted checks already give 2 or no unknown status blocks a check |
| Verdict.HeldByUnknownMeans | internal/engine/engine.go:147-159 | an unknown status holds a check back if and only if the first blocker of some check was attempted and its own collector returned that status |
| Verdict.UnknownStatusChangesVerdict | internal/reporters/json.go:103-113 | two checks on which the exit code is 2 over all results and 0 over the attempted ones |
| Reports.SummarizeResults | internal/reporters/json.go:82-101 | the counters are the numbers of results with each status |
| Reports.ExitCodeMeans | internal/reporters/json.go:103-113 | 2 if some result is an error or undecided, else 1 if some failed, else 0 |
| Reports.SummaryIsCompleteIffStatusesKnown | internal/reporters/json.go:82-101 | the counts sum to the number of results if and only if no status is unknown |
| Reports.SummaryCounts | internal/reporters/json.go:82-101 | each counter is the number of positions with its own status |
| Reports.NormalizeResults | internal/reporters/json.go:115-128 | the copied, sorted and rewritten slice is the sorted list of sanitized results |
| Reports.ReportIsStrictlyAscending | internal/reporters/json.go:115-128 | on results with distinct ids the report is strictly ascending by id and has the same ids and statuses as the results |
| Reports.ReportIgnoresExecutionOrder | internal/reporters/json.go:62-80 | two execution orders of the same results give the same report |
| Reports.ReportAgreesWithProcess | internal/reporters/json.go:62-80 | summary and exit code of the sanitized report are those of the raw results, which the process exits with |
| Reports.ReportHoldsEveryResult | internal/reporters/json.go:62-80 | the report lists every result once, sanitized, strictly ascending by id, and nothing else |
| Reports.SanitizedEvidenceIsBounded | internal/reporters/evidence_sanitize.go:39-51 | evidence not shown raw is at most 4096 bytes, valid UTF-8 if redaction leaves it so, flagged when cut; flags are never cleared and nothing else changes |
| Reports.SanitizedEvidenceIsRedacted | internal/reporters/evidence_sanitize.go:39-78 | evidence not shown raw is the redacted text, or a beginning of it with the mark when it is longer than 4096 bytes; the flags are exactly the old ones or what redaction and truncation did |
| Redaction.RedactEvidenceRaw | internal/reporters/evidence_sanitize.go:53-66 | the loop applies each replacement to what the earlier ones left |
| Redaction.FlaggedIffSomePatternApplies | internal/reporters/evidence_sanitize.go:53-66 | flagged if and only if some pattern has something to replace in the original; otherwise the text is unchanged |
| Redaction.RedactedIsComposition | internal/reporters/evidence_sanitize.go:53-66 | the text is each replacement applied to what the ones before it left |
| Truncation.TruncateUTF8 | internal/reporters/evidence_sanitize.go:80-101 | the range loop with its running cut computes the truncation the theorems are about |
| Truncation.TruncatedIsLongestValidPrefix | internal/reporters/evidence_sanitize.go:80-101 | on valid UTF-8 the result is the longest valid prefix of at most limit bytes |
| Truncation.TruncationRespectsLimit | internal/reporters/evidence_sanitize.go:68-78 | for any bytes and a positive limit: at most limit bytes, flagged if and only if the input was longer, otherwise unchanged |
| Truncation.TruncationShowsABeginning | internal/reporters/evidence_sanitize.go:68-78 | cut evidence is a beginning of the text, with the mark when the limit has room for it |
| Truncation.TruncationKeepsValidity | internal/reporters/evidence_sanitize.go:68-78 | on valid UTF-8 the truncated evidence with its suffix is valid UTF-8 |
| Truncation.TruncatedEvidenceIsValidIff | internal/reporters/evidence_sanitize.go:68-101 | for any bytes and one positive limit: the result is valid UTF-8 if and only if no byte is ill-formed, or the evidence is cut and the first ill-formed byte plus three exceeds what stays visible |
| Truncation.DefaultLimitCanSplit | internal/reporters/evidence_sanitize.go:68-101 | a concrete evidence text that truncation at the default limit leaves ill-formed, cut inside a well-formed character |
| Parser.Tokenize | internal/contract/parser.go:88-121 | the line loop is the line-by-line specification, errors included |
| Parser.ParseBlock | internal/contract/parser.go:123-137 | dispatches to list or map at exactly the block's indent |
| Parser.ParseMap | internal/contract/parser.go:139-196 | the loop over entries, nested blocks, empty maps and duplicate keys is the recursive specification |
| Parser.ParseList | internal/contract/parser.go:198-238 | the loop over scalar items is the recursive specification |
| Parser.ParseDocument | internal/contract/parser.go:50-79 | document parsing up to the node tree, with the UTF-8, root indent and leftover checks |
| LineConservation.BlockConservesLines | internal/contract/parser.go:123-238 | a block parsed from i to j has j > i, every line in between indented at least as deep, and j - i map entries plus list items |
| LineConservation.DocumentConservesLines | internal/contract/parser.go:50-79 | an accepted document has exactly one map entry or list item per significant line |
| LineConservation.BlockTakesItsLines | internal/contract/parser.go:123-238 | a block has exactly one entry or item for each of its lines at its own indent |
| ParsedTrees.ParsedIsPrintable | internal/contract/parser.go:50-79 | only non-empty maps of maps, lists of scalars and 64-bit scalars are parsed; EveryTreeIsParsed is the converse |
| ParsedTrees.TabIsRejected | internal/contract/parser.go:96-98 | a tab anywhere has the document rejected |
| ParsedTrees.MarkerIsRejected | internal/contract/parser.go:104-106 | a document marker line has the document rejected |
| ParsedTrees.InlineCommentIsRejected | internal/contract/parser.go:108-112 | content with a hash behind a space outside quotes has the document rejected |
| RoundTrip.SplitQuotedKey | internal/contract/parser.go:290-318 | splitKeyValue gives back any key, quoted in either style, and any value without outer white space |
| RoundTrip.BareKeyMeans | internal/contract/parser.go:290-318 | a key without quotes at its ends and without a delimiter inside stands for itself, except that a colon outside quotes, the merge key and anchor, alias and tag beginnings are rejected |
| RoundTrip.PlainScalarMeans | internal/contract/parser.go:240-288 | a value without quotes at its ends is the empty list, rejected for a reserved beginning, a bool, a 64-bit integer, or the string itself |
| RoundTrip.QuotedScalarMeans | internal/contract/parser.go:262-271 | a value with a quote at an end is rejected unless it is one quoted text, and the quoting of a string is that string |
| RoundTrip.TokenizeAndParseUndoPrint | internal/contract/parser.go:88-318 | for every tree of maps with distinct keys, scalar lists, strings, 64-bit ints and bools, printed with any positive nesting step, any key order, each key and string plain or quoted in either style that can hold it, and any blank lines, comments and CRLF ends, parsing returns the tree and uses up every significant line |
| DocumentRoundTrip.EscapeKeepsValidity | internal/contract/parser.go:395-438 | a string written in either quoting style is valid UTF-8 if and only if the string is |
| DocumentRoundTrip.ParseUndoesPrint | internal/contract/parser.go:50-79 | the whole document parses to its tree if all keys, strings and comments are UTF-8, and is rejected otherwise |
| DocumentRoundTrip.EveryTreeIsParsed | internal/contract/parser.go:123-238 | every non-empty map of that shape is the parse of some text |
| Quoting.KeyValueDelimiter | internal/contract/parser.go:320-366 | with its three flags, finds the first colon outside quotes that ends the line or precedes a space |
| Quoting.HasUnsupportedInlineComment | internal/contract/parser.go:1062-1098 | with the same flags, true if and only if some hash after a space is outside quotes |
| Quoting.EscapedByBackslash | internal/contract/parser.go:468-475 | true if and only if an odd run of backslashes stands before the index |
| Quoting.ValidQuotedString | internal/contract/parser.go:440-466 | every inner double quote is escaped by parity, or inner single quotes come in pairs |
| Quoting.DecodeDoubleQuotedString | internal/contract/parser.go:408-438 | the builder loop with its escape flag is the decoding function |
| QuotingTheorems.ParityMeetsDecoder | internal/contract/parser.go:408-475 | backward parity at every quote together with the forward decoder accept exactly the double-quoted grammar |
| QuotingTheorems.PairsMeetGrammar | internal/contract/parser.go:452-461 | the pairing loop accepts exactly the single-quoted grammar |
| QuotingTheorems.ParseAcceptsGrammar | internal/contract/parser.go:368-406 | quoted results exactly on the quoted grammar, text passed on exactly when no quote is at either end, errors on the rest |
| QuotingTheorems.ParseInvertsQuote | internal/contract/parser.go:368-438 | decoding inverts quoting for every string in both styles |
| QuotingTheorems.QuoteIsOpaque | internal/contract/parser.go:320-366 | a quoted string leads the scanners from plain to plain and shows no colon or hash outside quotes |
| QuotingTheorems.ValueScansAfresh | internal/contract/parser.go:1062-1098 | behind the delimiter the second scanner is in the state of a fresh scan of the value |
| QuotingTheorems.CommentIsInKeyOrValue | internal/contract/parser.go:1062-1098 | a line has an inline comment if and only if its key part or its value has one |
| EditDistance.NextRow | internal/contract/parser.go:1180-1195 | one pass over the single row in place turns the distances of one prefix into those of the next |
| EditDistance.Levenshtein | internal/contract/parser.go:1164-1199 | the row algorithm with its shortcuts returns the prefix-recursive distance |
| EditDistance.DistanceIsLeastCost | internal/contract/parser.go:1164-1199 | the distance is the least cost of an insert, delete and substitute script from left to right |
| EditDistance.DistanceIsMetric | internal/contract/parser.go:1164-1199 | zero if and only if equal, symmetric, triangle inequality |
| EditDistance.NearestField | internal/contract/parser.go:1147-1162 | the first allowed name at minimum distance, or empty when that exceeds 3 or nothing is allowed |
| Fields.RejectUnknownFields | internal/contract/parser.go:847-872 | accepts exactly mappings with allowed keys only; otherwise names the bytewise least unknown key with its hint |
| Fields.HintIsUnique | internal/contract/parser.go:1147-1162 | the hint is determined by the field and the allowed names |
| Contracts.ValidateSemantics | internal/contract/semantic.go:5-36 | no error if and only if no identity entry names a declared service whose state is not active; the error names the bytewise least such entry |
| Checks.BuildPathChecks | internal/collectors/paths.go:26-101 | the checks of all paths, in byte order of the path and fixed order of the kinds |
| Checks.BuildSocketChecks | internal/collectors/sockets.go:16-81 | the same for sockets |
| Checks.BuildServiceChecks | internal/collectors/services.go:74-152 | the same for services, with state checks only when asked |
| Checks.BuildIdentityChecks | internal/collectors/identity.go:61-159 | the same for identity entries, one check per declared value |
| Builder.WithPrerequisite | cmd/savk/main.go:357-367 | every check wrapped behind the preflight, in order |
| Builder.SynthesizeStates | cmd/savk/main.go:276-286 | whatever order the map is walked in: a state check for exactly the services of identity entries not otherwise covered |
| Builder.BuildServiceBackedChecks | cmd/savk/main.go:266-297 | declared service checks, synthesized state checks and identity checks |
| Builder.BuildChecksForDomains | cmd/savk/main.go:204-264 | succeeds if and only if the contract is consistent and all domains are known; then it gives the specified list |
| BuilderMembers.BuiltIffWanted | cmd/savk/main.go:204-297 | a check is built if and only if the contract and the domains call for it: each value that is set, each state an identity entry needs, each preflight with something behind it, wrapped or bare as the host root decides |
| BuilderMembers.PrerequisitesAre | cmd/savk/main.go:398-401 | a built check waits for its preflight, where it has one, then for the existence or state check it details, and for nothing else |
| BuilderMembers.IdsAre | internal/collectors/paths.go:103-105 | the id of every check, wrapped or not, from its prefix, name and kind |
| Builder.SelectedDomains | cmd/savk/main.go:299-334 | the filter's distinct trimmed parts or the declared domains, sorted |
| Builder.SelectedDomainsAreDistinct | cmd/savk/main.go:299-334 | the choice is distinct and sorted, and without a filter exactly the declared domains |
| CheckIds.NamedIsInjective | internal/collectors/services.go:96-149 | within a domain, equal ids have equal names and equal kinds, whatever dots the names contain |
| CheckIds.PreflightIsNoNamedCheck | internal/collectors/service_preflight.go:17-19 | no check of any name has a preflight's id |
| BuilderTheorems.ProperIdsTellApart | internal/collectors/identity.go:89-156 | two checks that can occur in one built graph and have the same id are the same check |
| BuilderTheorems.BuiltIdsAreDistinct | cmd/savk/main.go:204-264 | no two checks of a built list share an id |
| BuilderTheorems.BuiltProvides | cmd/savk/main.go:393-401 | every prerequisite of a built check is in the list, at a lower rank |
| BuilderTheorems.BuiltGraphIsAccepted | cmd/savk/main.go:204-264 | for every contract, distinct domains and host root the engine accepts the built checks |
| BuilderTheorems.SelectedGraphIsAccepted | cmd/savk/main.go:299-334 | so it accepts the checks of the command line's own choice of domains |
| FailClosed.PreflightPassesIff | internal/collectors/service_preflight.go:82-144 | the preflight passes if and only if it ran, the target is linux-systemd and process 1 is systemd |
| FailClosed.PreflightReportsWhy | internal/collectors/service_preflight.go:82-144 | the status, reason and source of a preflight that does not pass, and the process name it saw |
| FailClosed.WaitsForPreflight | cmd/savk/main.go:224-261 | every guarded check has its domain's preflight as prerequisite, an identity check through its service's state check |
| FailClosed.DomainFailsClosed | cmd/savk/main.go:222-261 | in any run without host root, and for service-backed checks in any run, a domain whose preflight is not PASS has no other check attempted or passed |
| FailClosed.DetailsNeedTheirBase | internal/collectors/paths.go:111-117 | in any run the detail checks of a path, socket or service are attempted only after its existence or state check passed |
| FailClosed.IdentityNeedsActiveService | internal/contract/semantic.go:16-33 | an identity check is attempted only after the state check of its service, expecting active, passed |
| FailClosed.OnlyPreflightsAreAttempted | internal/collectors/service_preflight.go:82-144 | when no preflight returns PASS, each in its own way, nothing but preflights is attempted |
| FailClosed.ExitCodeOutsideSystemd | internal/reporters/json.go:103-113 | when no preflight passes, whether it returned, panicked or timed out, the exit code is 2 if some attempted preflight is an error and 0 otherwise; for linux-systemd it is 2 as soon as there is anything to check |
| AccountIndex.FindMeans | internal/collectors/accounts.go:255-273 | a lookup finds an entry if and only if the entries filed under the key are that one entry, and is ambiguous if and only if they differ |
| AccountIndex.FindIgnoresOrder | internal/collectors/accounts.go:255-273 | a lookup depends on the set of entries only |
| Accounts.FileAccountResolver.ReadPasswd | internal/collectors/accounts.go:209-281 | the loading loop leaves the four maps as the two indexes of the entries, or the error flag |
| Accounts.FileAccountResolver.ReadGroup | internal/collectors/accounts.go:283-349 | the same for groups |
| AccountTheorems.LoadMeans | internal/collectors/accounts.go:209-349 | a file is loaded if and only if it was opened and read to its end and no line is invalid; its entries are those of its lines |
| AccountTheorems.OtherLines | internal/collectors/accounts.go:225-240 | blank lines and comments are ignored, lines with too few columns are invalid |
| AccountTheorems.PasswdColumns | internal/collectors/accounts.go:228-260 | any line, not a comment, of the form name:password:uid:gid with whatever follows is the entry of these columns, or invalid when the name is blank or an id is no 32-bit number |
| AccountTheorems.GroupColumns | internal/collectors/accounts.go:302-326 | the same for name:password:gid lines |
| Accounts.FileAccountResolver.UserNameByUID | internal/collectors/accounts.go:87-100 | answers from the entries of passwd, which has then been read exactly once |
| Accounts.FileAccountResolver.GroupNameByGID | internal/collectors/accounts.go:102-115 | answers from the entries of group, which has then been read exactly once |
| Accounts.FileAccountResolver.PrimaryGroupNameByUser | internal/collectors/accounts.go:117-139 | answers from the entries of both files |
| Accounts.FileAccountResolver.NormalizeUserValue | internal/collectors/accounts.go:141-173 | a non-numeric value is its own name; a numeric one reconciles its readings |
| Accounts.FileAccountResolver.NormalizeGroupValue | internal/collectors/accounts.go:175-207 | the same for groups |
| AccountTheorems.UserNameByUIDMeans | internal/collectors/accounts.go:87-100 | the name is n if and only if exactly one entry has the uid and it is named n |
| AccountTheorems.GroupNameByGIDMeans | internal/collectors/accounts.go:102-115 | the name is n if and only if exactly one entry has the gid and it is named n |
| AccountTheorems.PrimaryGroupMeans | internal/collectors/accounts.go:117-139 | n if and only if one entry bears the user's name and exactly one group has its gid and is named n |
| AccountTheorems.NumericNormalizesMeans | internal/collectors/accounts.go:141-207 | a numeric value normalises to n if and only if it has a reading, neither reading is ambiguous and every reading names n |
| AccountTheorems.UserValueMeans | internal/collectors/accounts.go:141-173 | for every value and load state: a trimmed text that is no number normalises to itself; a number normalises to n if and only if passwd is loaded, it has 32 bits and the entries that bear it as name or uid, unambiguous each way, are all named n |
| AccountTheorems.GroupValueMeans | internal/collectors/accounts.go:175-207 | the same for groups |
| AccountTheorems.LookupsIgnoreLineOrder | internal/collectors/accounts.go:209-349 | all five lookups answer the same for every reordering of the lines |
| Capabilities.ParseCapabilityMask | internal/collectors/identity.go:625-645 | the loop over 64 bits gives the sorted names of the set bits, or an error on bad hexadecimal |
| Capabilities.HexIsReadBack | internal/collectors/identity.go:625-634 | any mask in hexadecimal, in either case and with leading zeros, is read back if it has 64 bits and rejected otherwise |
| Capabilities.EqualStrings | internal/collectors/services.go:495-505 | the loop decides equality of the lists |
| Capabilities.BitNamesDiffer | internal/capabilities/capabilities.go:8-66 | different bits have different names, known to the table or not |
| Capabilities.CapabilitiesMatchExactly | internal/collectors/identity.go:262-272 | the comparison passes if and only if the expected list has each set bit's name once and nothing else |
| Capabilities.MaskNamesAreInjective | internal/collectors/identity.go:625-653 | two 64-bit masks give the same sorted list only if they are equal |
| Systemctl.ParseSystemctlProperties | internal/collectors/services.go:606-628 | the line loop and the required keys are the specified properties |
| KeyValues.PropertiesMean | internal/collectors/services.go:606-620 | well formed if and only if every line is blank or an assignment; then the last assignment of a key wins |
| Systemctl.ParseSystemctlMainPID | internal/collectors/identity.go:489-511 | the branches in order, with the error each gives |
| Systemctl.UsableMeans | internal/collectors/identity.go:489-511 | usable with pid and group if and only if the last assignments give a loaded unit, a positive pid and a non-empty control group |
| Systemctl.UnusableMeans | internal/collectors/identity.go:489-511 | which error an unusable answer gives: malformed or incomplete output, an unknown unit, or no usable id or group |
| Systemctl.FindCgroup | internal/collectors/identity.go:601-614 | true if and only if the trimmed group is non-empty and equals some trimmed cgroup |
| Identity.ServiceMainPIDReader.Read | internal/collectors/identity.go:417-467 | one lookup through the cache: the cached answer, or the one systemctl gives, stored, with at most one systemctl run |
| Identity.RuntimeIdentityObserver.Read | internal/collectors/identity.go:325-374 | one observation through both caches |
| Identity.VerdictMeans | internal/collectors/identity.go:182-272 | PASS or FAIL if and only if an observation without error was obtained, and PASS if and only if the observed id or set is the one the contract declares for that kind |
| Identity.FailureMeans | internal/collectors/identity.go:182-212 | the status and reason of a check that gets no verdict, for every kind of failure |
| Identity.EvidenceMeans | internal/collectors/identity.go:274-311 | the source and raw text every result of an identity check carries |
| Identity.LookupMeans | internal/collectors/identity.go:417-461 | a lookup succeeds with a process if and only if systemctl ran, exited with zero and named it; otherwise it has the first error on the way |
| Identity.LookupKeepsEvidence | internal/collectors/identity.go:417-481 | the command that is run, and the exit code and printed text a lookup keeps |
| Identity.ObservationKeepsEvidence | internal/collectors/identity.go:325-368 | an observation keeps its lookup, adds the process it read, and fails exactly on a failed lookup, a failed read or a process outside the control group |
| Identity.MaskVerdictMeans | internal/collectors/identity.go:214-272 | kind by kind: with the process list of a set read from a mask, the check passes if and only if the contract's list of the same set names exactly its bits |
| Identity.QueriedOnce | internal/collectors/identity.go:325-467 | read in turn, each requested service is asked for exactly once, or never without systemctl, and is cached |
| Identity.FirstReadDecides | internal/collectors/identity.go:325-374 | every read of a service is answered with what its first read observed |
| Processes.ParseProcessStatus | internal/collectors/identity.go:513-571 | the line loop with its trimmed fields and early errors gives the status that StatusMeans characterises |
| Processes.StatusMeans | internal/collectors/identity.go:513-571 | a status is read if and only if every line is blank or key:value and the seven fields parse; uid and gid are the second word of the last Uid and Gid line, each list the names of the mask on its own last Cap line |
| Processes.WordsMean | internal/collectors/identity.go:616-623 | white space has no words, otherwise the first word is the first run without white space |
| Processes.ParseProcessCgroups | internal/collectors/identity.go:573-599 | the line loop gives the specified cgroup paths |
| Processes.CgroupLineMeans | internal/collectors/identity.go:579-594 | a line names a cgroup if and only if it is hierarchy:controllers:path with a path that is not blank |
| Processes.ReadStatusMeans | internal/collectors/identity.go:29-59 | a read without error holds the ids and masks on the lines of the status file and exactly the paths on the lines of the cgroup file |
| Processes.ReadStatusIsCanonical | internal/collectors/identity.go:625-645 | the lists read are in the order the comparison expects |
| Processes.IDVerdictIsExact | internal/collectors/identity.go:236-260 | from the process files to the verdict: a uid or gid check passes if and only if the effective id on the last Uid or Gid line is the declared one |
| Processes.CapabilityVerdictIsExact | internal/collectors/identity.go:214-272 | from the process files to the verdict, kind by kind: a capability check passes if and only if the contract's list of that set names, once each, the bits of the one mask on the line of that set |
| IdentityRuns.RunHolds | internal/collectors/identity.go:325-467 | under every interleaving of atomic steps, every cached, stored or returned answer without error is grounded in the log |
| IdentityRuns.VerdictHasProvenance | internal/collectors/identity.go:182-234 | a PASS or FAIL rests on one systemctl output with a positive pid and non-empty group, and on a later read of that pid that found it in that group |
| IdentityQueries.AskedTwiceIffOverlap | internal/collectors/identity.go:417-467 | over all action sequences: two systemctl runs of a service are done or bound to come if and only if two readers were in its window at once; with no run pending, at most one is in the log if and only if none ever were |
| IdentityQueries.TakingTurnsAsksOnce | internal/collectors/identity.go:417-467 | a service whose own readers never run at the same time is asked for at most once, whatever readers of other services do |
| IdentityQueries.InTurnAsksOnce | internal/collectors/identity.go:325-467 | so readers that run one after the other ask for each service at most once |
| IdentityRuns.InTurnIsSequential | internal/collectors/identity.go:325-467 | run one after the other, the readers end in the caches, systemctl runs and answers of the sequential reads; schedules with overlaps are the subject of AskedTwiceIffOverlap |
| IdentityRuns.RacersAskTwice | internal/collectors/identity.go:417-424 | two overlapping readers of a service can both run systemctl and each return its own answer |
| IdentityVerdicts.BuiltIdentityIsDeclared | internal/collectors/identity.go:91-156 | every identity check built has a declared value to compare, so no nil value is dereferenced |
| IdentityVerdicts.ReportedIdentityHasProvenance | internal/engine/engine.go:197-213 | in a run of a built graph an identity check reported PASS or FAIL was attempted, and it is PASS if and only if a status read with provenance (its lists sorted, as the process reader leaves them) meets the contract, whichever collectors panicked or timed out |

## Left out

- Parser.Tokenize: white space is ASCII; the Unicode part of strings.TrimSpace is not modelled.
- Parser.ParseDocument: stops at the node tree; the field-by-field decoders behind it only branch on single values, and line numbers and error wording are not kept.
- Engine.Outcome: deadlines, goroutines and context plumbing are reduced to how an attempted check ends; times and durations are not modelled.
- Redaction.RedactedBy: the regular expressions are arbitrary functions.
- Reports.BuildJSONReport: metadata and JSON or table rendering are not modelled.
- Accounts.FileAccountResolver: a failed lookup carries no error text; opening and scanning the files is a parameter.
- Identity.Reply: the text classification of a failing systemctl exit is a parameter, as is running the command.
- Identity.Judged: a kind the builder never makes, which the source answers with an internal error, is outside its domain.
- FailClosed.NamespaceRun: evidence and message texts are shortened; only status, reason and source are kept.
- The service unit reader's cache and the comparisons of service, path and socket checks: single-branch facts about values the collectors return.
- The rooted path checker, PATH lookup, host name, contract hash, flag parsing, usage and version output.
