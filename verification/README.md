# Verified models of json-scada's stateful cores

json-scada is a distributed SCADA system built around MongoDB. This project holds Dafny models of
the parts of it that keep state, run concurrently, or must be exact, each with proofs of what the
rest of the system relies on:

* **Redundancy.** Nodes agree on one active node through a shared document with a keep-alive tag
  (`Redundancy.dfy` is one node, `RedundancyProtocol.dfy` any number of nodes whose reads,
  decisions and writes interleave).
* **Change processing.** Change events pass a bounded queue that drops its oldest event, a
  dispatcher and sharded workers (`Pipeline.dfy`). One analog point goes through its limits with
  hysteresis and the historian's dead band (`AnalogPoint.dfy`). Updates reach the database through
  a linger-and-size batching writer (`BatchingWriter.dfy`) or a coalescing flush on an event loop
  (`FlushScheduler.dfy`); both write the operations of `RealtimeUpdates.dfy`.
* **Metrics.** A logarithmic latency histogram with four percentiles in one pass (`Histogram.dfy`),
  and its lock-free recording by any number of threads (`LockFreeHistogram.dfy`).
* **Printers.** JSON strings (`JsonText.dfy`), numbers (`Decimal.dfy`, `NumberLayout.dfy`), nested
  documents with overrides (`JsonDocument.dfy`), and doubles in base 2 (`Radix2.dfy`). Each is
  proved against a reader of the format: RFC 8259 sections 4 to 7, and Number::toString of
  ECMA-262 section 6.1.6.1.20.
* **OPC UA client.** A breadth-first browse with continuation points and shrinking batches
  (`Browse.dfy`, after OPC UA Part 4 sections 5.8.2 and 5.8.3), what a finished browse has found of
  a fixed address space (`BrowseCompleteness.dfy`), and a limit on what one item may deliver
  (`FloodLimiter.dfy`).
* **Calculations.** Cyclic evaluation of formulas on snapshots of the database
  (`Calculations.dfy`).
* **OPC UA server.** The folder tree for tag groups (`FolderTree.dfy`).

`Powers.dfy` and `Options.dfy` are shared helpers. Code that updates state in the original is a
class or a loop here, proved against functions on values; whole-run properties are lemmas about
those functions, and readers, tables and limits in these lemmas are written out with their own
numbers, not with the constants of the code they speak about. `dafny verify dfyconfig.toml` checks everything.

## Where the code and its descriptions part

* **Convergence of the redundancy protocol.** "Once takeovers stop, one full tick of every node
  leaves one active" does not hold of interleaved reads and writes: two nodes that have both read
  themselves as active can confirm themselves in turn. `ConvergenceCondition` gives the exact
  condition: at most one node is a candidate, that is, named by the document, by a write under way,
  or by a read not processed yet. Nodes that have just started reach a state where it fails, and can
  go on from there to two active nodes (`StartCanEndWithTwoActive`).
* **Keep-alive counters without a reset.** The variants in `src/calculations/calculations.go:255-262`
  and `src/OPC-DA-Client/Redundancy.cs:106-115` count repeated reads over the node's whole life
  (`NoResetCountsAllRepeats`), so a standby can take over from a node that is alive
  (`VariantTakesOverFalsely`).
* **Flood limit.** The limit of 200 values per window admits 399 in some half-open second, and never
  more (`FloodBound`, `BoundIsReached`).
* **Browse depth.** The limit of 128 counts requests, not levels (`RequestLimitLeavesNodesBehind`).
* **Browse completeness.** A node first met through HasProperty is recorded but never expanded, even
  if other references lead to it as a child. `PropertyFirstLosesNode` has an address space of which
  every finished browse lacks a node for that reason. `CompletenessCondition` says when all is well:
  in whatever order nodes are answered, all references of every node to be browsed are received, if
  and only if no such node that has references is shadowed, that is, met first as a property by some
  path from the start. The condition is exact for receiving references. For finding nodes it is
  sufficient (`UnshadowedIsFound`) but not necessary: what a lost node refers to may be found
  elsewhere (`ShadowedNodeMayLoseNothing`), and whether it is depends on which nodes one order of
  answers loses together.
* **Browse paths.** A path is its parent's path, a slash and the browse name only if the parent's path
  does not end in a slash: trailing slashes are trimmed (`PathsExtendParents`, `TrailingSlashIsTrimmed`).
* **Overrides.** A field that occurs twice in a document is overridden twice, where an assignment
  would change one property (`OverridesAreAssignments` has the exact condition).
* **Formulas.** 50 and 51 keep the last valid parcel although the comment says first, which is the same
  exactly when both have one value (`ChoiceMeetsCommentIff`); 13 adds two parcels back that the comment
  subtracts; 5022 leaves out the comment's factor of 0.65.
* **Stored results.** A cycle writes its results as source data; another process converts them before
  they are stored. A stored result is written again by the next cycle exactly when conversion changed
  it (`AppliedUpdateIsQuietIff`), so the runs shown to come to rest are those where calculated points
  are stored as calculated (`RunsConverge`; `ConversionIsIdentityIff` says when that is so).

## Model

| member | source | states |
|---|---|---|
| HistogramBuckets.IndexIsBucket | src/cs_data_processor-go/metrics.go:122-136 | the index of a sample is idx exactly when the sample lies between the bounds of bucket idx: the buckets partition the samples |
| HistogramBuckets.IndexBrackets | src/cs_data_processor-go/metrics.go:122-136 | every non-negative 64-bit sample lies in its bucket and stays below the last index, so the cap never decides |
| HistogramBuckets.IndexMonotone | src/cs_data_processor-go/metrics.go:122-136 | larger samples never get smaller indexes, negative ones included |
| HistogramBuckets.SixtyFourPerOctave | src/cs_data_processor-go/metrics.go:122-136 | a sample below 128 is its own index, and doubling a sample of 64 or more moves it on by 64 buckets |
| HistogramBuckets.RepresentativeAccuracy | src/cs_data_processor-go/metrics.go:138-146 | the representative of a sample's bucket is the sample itself below 128 and within 1/128 of it above |
| HistogramBuckets.RepresentativeIsMiddle | src/cs_data_processor-go/metrics.go:138-146 | from 128 on the representative is the middle of the range of samples that share its index |
| HistogramBuckets.RepresentativesIncrease | src/cs_data_processor-go/metrics.go:138-146 | representatives are ordered as their buckets |
| LatencyHistogram.RankExists | src/cs_data_processor-go/metrics.go:212-256 | every rank from 1 to n is held by one of the n samples |
| LatencyHistogram.CrossingHoldsRank | src/cs_data_processor-go/metrics.go:240-251 | the first bucket at which the accumulated count reaches a quantile is the bucket of the sample of rank ceil(q*n) |
| LatencyHistogram.CrossingsOrdered | src/cs_data_processor-go/metrics.go:240-251 | later quantiles are reached in the same bucket or a later one |
| LatencyHistogram.Percentiles | src/cs_data_processor-go/metrics.go:222-255 | the single walk answers each quantile as a search of its own would, with non-decreasing results, and reaches all of them |
| LatencyHistogram.PercentileAccuracy | src/cs_data_processor-go/metrics.go:212-256 | each percentile of a snapshot is exact below 128 microseconds and otherwise within 1/128 of the sample that holds the rank |
| LatencyHistogram.ReportedPercentiles | src/cs_data_processor-go/metrics.go:212-256 | the four percentiles are those of the ranks n/2, 9n/10, 99n/100 and 999n/1000, rounded up |
| LatencyHistogram.AverageIsBetween | src/cs_data_processor-go/metrics.go:212-256 | the reported average lies between the reported extremes |
| LatencyHistogram.Histogram.constructor | src/cs_data_processor-go/metrics.go:115-119 | a new histogram describes no samples |
| LatencyHistogram.Histogram.Observe | src/cs_data_processor-go/metrics.go:149-168 | afterwards the cells describe the samples so far and the new one, negative durations as zero |
| LatencyHistogram.Histogram.Reset | src/cs_data_processor-go/metrics.go:189-197 | afterwards the cells describe no samples |
| LatencyHistogram.Histogram.Snapshot | src/cs_data_processor-go/metrics.go:212-256 | the summary has the true count, extremes, mean and quantile buckets of the samples recorded, or is empty |
| LockFreeHistogram.QuiescentCellsDescribeSamples | src/cs_data_processor-go/metrics.go:149-168 | after any interleaving of the loads, additions and swaps of any number of calls, once all have returned, minimum, maximum, count, sum and buckets are those of the samples offered |
| LockFreeHistogram.FailedSwapLostToProgress | src/cs_data_processor-go/metrics.go:156-167 | a compare-and-swap fails only because another call has improved the extreme since it was loaded |
| LockFreeHistogram.RetriesAreBounded | src/cs_data_processor-go/metrics.go:156-167 | no interleaving keeps calls retrying: n calls execute at most n * (4n + 7) instructions |
| RedundancyNode.Node.ProcessRedundancy | src/cs_data_processor-go/redundancy.go:70-182 | one tick: which state follows, whether a document is inserted or updated, and when the process ends |
| RedundancyNode.Node.TickOffline | src/cs_data_processor-go/redundancy.go:60-63 | without a connection a node is inactive and its counter stays |
| RedundancyNode.CounterMeaning | src/cs_data_processor-go/redundancy.go:147-167 | the last reads, as many as the counter says, all carried the remembered tag and named another node, and the counter never exceeds its limit between ticks |
| RedundancyNode.TakeoverAfterFiveStaleReads | src/cs_data_processor-go/redundancy.go:147-167 | a takeover by counting follows five successive reads of one tag that name another node |
| RedundancyNode.TakeoverExactly | src/cs_data_processor-go/redundancy.go:147-167 | reading an unchanging document, a node takes over at exactly one read, the sixth at the latest |
| RedundancyNode.NoResetCountsAllRepeats | src/calculations/calculations.go:255-262 | without the reset the counter is the number of repeated reads ever, and the fifth activates the node |
| RedundancyNode.ResetIgnoresShortStalls | src/cs_data_processor/redundancy.js:105-136 | with the reset a tag refreshed at least every second read never wakes a standby |
| RedundancyNode.VariantTakesOverFalsely | src/OPC-DA-Client/Redundancy.cs:105-115 | ten reads of a document refreshed before every second one wake the variant and not the resetting node |
| RedundancyProtocol.StepKeepsTagsFresh | src/cs_data_processor-go/redundancy.go:170-177 | no step of any node lets a tag under way be known before its write lands, and no two writes share a tag |
| RedundancyProtocol.LandedWriteShows | src/cs_data_processor-go/redundancy.go:90-108 | an insert makes the first document, enabled for every node, an update changes its name and tag and nothing else, and any other write is refused |
| RedundancyProtocol.NoFalseTakeover | src/cs_data_processor-go/redundancy.go:141-182 | over any interleaving of any number of nodes, while the document changes before any standby reads it a sixth time, the node in charge alone is ever active and stays named |
| RedundancyProtocol.StartIsInCharge | src/cs_data_processor-go/redundancy.go:49-68 | freshly started nodes leave the named node in charge |
| RedundancyProtocol.LoneStandbyTakesOver | src/cs_data_processor/redundancy.js:100-154 | if the others have stopped, a ticking standby becomes active at one known tick, within six, and its landed write names it |
| RedundancyProtocol.ActiveUnnamedWasOverwritten | src/cs_data_processor-go/redundancy.go:141-177 | in any run of nodes that have just started, an active node that the document does not name has written, and its newest write has landed and a later landed write by the node now named left the document as it is, if and only if that newest write is neither under way nor lost nor refused |
| RedundancyProtocol.OutsiderSettles | src/cs_data_processor-go/redundancy.go:147-153 | a node that no document, write under way or unprocessed read names is passive after its next processed read, and stays so without a takeover |
| RedundancyProtocol.OneCandidateConverges | src/cs_data_processor-go/redundancy.go:141-182 | with at most one candidate every takeover-free run of full ticks leaves at most one node active |
| RedundancyProtocol.TwoCandidatesCanBothStayActive | src/cs_data_processor/redundancy.js:137-154 | from two candidates there is a takeover-free run in which every node completes a tick and both are active |
| RedundancyProtocol.ConvergenceCondition | src/cs_data_processor/redundancy.js:100-154 | where no node is shut out, convergence holds if and only if there is at most one candidate |
| RedundancyProtocol.QuietStateConverges | src/cs_data_processor-go/redundancy.go:141-182 | with no write under way and no read unprocessed, a full tick of every node leaves at most one active |
| RedundancyProtocol.TakeoverMakesTwoCandidates | src/cs_data_processor/redundancy.js:100-154 | a standby that reads the document until it takes over is a candidate beside the node named |
| RedundancyProtocol.StartCanEndWithTwoActive | src/cs_data_processor/redundancy.js:100-154 | from nodes that have just started a run leads to a state where convergence fails, and on, without a takeover and with a full tick of every node, to one with two nodes active |
| BrowsePages.MergeContinued | src/OPC-UA-Client-Go/browse.go:254-268 | merging in place appends the k-th continued page to the k-th result that has a continuation point, and stops when pages run out |
| BrowsePages.MergeAdvances | src/OPC-UA-Client-Go/browse.go:239-268 | merging the answer to a level's own points gives every result its own next page |
| BrowsePages.PointsAdvance | src/OPC-UA-Client-Go/browse.go:144-155 | the points of the answer are those the merged results are left with, so the next round asks for the right pages |
| BrowsePages.Drain | src/OPC-UA-Client-Go/browse.go:139-155 | the loop ends with every result holding all its pages in order, none lost or given to another node |
| BrowsePages.PagesInOrder | src/OPC-UA-Client-Go/browse.go:139-155 | a drained result has the pages behind its continuation point after its own references, one after the other |
| BrowseWalk.VisitKeepsInv | src/OPC-UA-Client-Go/browse.go:170-196 | receiving a reference keeps the walk's invariant: known, pruned and unusable references change nothing, others are recorded once, and non-properties join the work |
| BrowseWalk.BrowseBatch | src/OPC-UA-Client-Go/browse.go:85-126 | the batch is all pending nodes or the first ones within the limit, halved after each answer too large to encode; the answer is that to the last batch tried, and it fails only where GivesUp says |
| BrowseWalk.BatchIsNotTooSmall | src/OPC-UA-Client-Go/browse.go:85-110 | against a server that can encode m nodes the batch has all pending nodes, as many as the first limit, or at least m/2 |
| BrowseWalk.GivesUpOnServerOnly | src/OPC-UA-Client-Go/browse.go:94-111 | an error ends the browse only where the server fails, or cannot encode the answer for a single node |
| BrowseWalk.Unprocessed | src/OPC-UA-Client-Go/browse.go:114-126 | just the nodes refused for want of continuation points are collected, in order |
| BrowseWalk.VisitLevel | src/OPC-UA-Client-Go/browse.go:156-196 | visiting a level's answers keeps the invariant, logs them in order, and collects just the newly recorded non-properties, in order |
| BrowseWalk.ExploreLevel | src/OPC-UA-Client-Go/browse.go:128-203 | afterwards pending are the nodes not answered, then those found to be browsed, then those refused, and the invariant is kept |
| BrowseWalk.BrowseFullAddressSpace | src/OPC-UA-Client-Go/browse.go:61-222 | the browse goes from round to round, each taking up what the ones before left, until nothing is pending or 128 rounds were answered, or a request ends it in error; what it found is what the replies of its rounds say |
| BrowseWalk.OutcomeIsUnique | src/OPC-UA-Client-Go/browse.go:61-222 | the contract of the browse allows one result only: the answers of the server determine every round, and with them what is found or that it ends in error |
| BrowseWalk.BreadthFirst | src/OPC-UA-Client-Go/browse.go:60-61 | while no node is refused, the start node and the nodes found are answered in the order they were found in, and what is pending is the rest of them |
| BrowseWalk.FinishedWalkIsClosed | src/OPC-UA-Client-Go/browse.go:77-203 | with nothing pending, the start node and every recorded non-property was answered, each of their references leads to a recorded node or a pruned diagnostic, and the order lists the recorded nodes once each |
| BrowseWalk.PathsExtendParents | src/OPC-UA-Client-Go/browse.go:167-191 | every recorded path is the path of the node it was found under, trailing slashes trimmed, a slash and the browse name; it is the plain concatenation exactly when that path does not end in a slash |
| BrowseWalk.FoundIsReachable | src/OPC-UA-Client-Go/browse.go:77-203 | every recorded node is reached from the start by a chain of references of the server |
| BrowseCompleteness.BrowseIsWalk | src/OPC-UA-Client-Go/browse.go:128-203 | a browse with nothing left to do found what its replies say, each from a node that was to be browsed at the time, and every node to be browsed was answered in full |
| BrowseCompleteness.CompletenessCondition | src/OPC-UA-Client-Go/browse.go:170-196 | in whatever order nodes are answered all references of every node to be browsed are received, if and only if no such node with references is met first as a property by a path from the start |
| BrowseCompleteness.ShadowedIsLost | src/OPC-UA-Client-Go/browse.go:170-196 | a path that meets a node with references first as a property gives an order of answers in which that node, or one the path meets so earlier, is never browsed |
| BrowseCompleteness.PathIsBrowsed | src/OPC-UA-Client-Go/browse.go:170-196 | every node with references on a path without pruned or shadowed nodes is browsed by every finished walk |
| BrowseCompleteness.UnshadowedIsFound | src/OPC-UA-Client-Go/browse.go:77-203 | every finished browse has recorded what the end of such a path refers to |
| BrowseCompleteness.ConsistentIsUnshadowed | src/OPC-UA-Client-Go/browse.go:192-195 | where references agree on which nodes are properties, no node to be browsed is shadowed |
| BrowseCompleteness.PropertyFirstLosesNode | src/OPC-UA-Client-Go/browse.go:192-195 | an address space of which every finished browse lacks a node that references other than HasProperty lead to |
| BrowseCompleteness.ShadowedNodeMayLoseNothing | src/OPC-UA-Client-Go/browse.go:170-196 | an address space with a shadowed node of which every finished walk has recorded all nodes |
| BrowseCompleteness.RequestLimitLeavesNodesBehind | src/OPC-UA-Client-Go/browse.go:77-77 | more nodes to be browsed, having references and none shadowed, than 128 requests can carry leave the browse unfinished, at any depth |
| BrowseCompleteness.SmallSpaceIsFinished | src/OPC-UA-Client-Go/browse.go:77-77 | with fewer than 128 nodes the browse leaves nothing pending, if every round answers some node and none is refused |
| BrowseCompleteness.DiagnosticsArePrunedByNode | src/OPC-UA-Client-Go/diagnostics.go:53-77 | where all references to a node carry one name, it is pruned under every parent or under none |
| BrowseCompleteness.TrailingSlashIsTrimmed | src/OPC-UA-Client-Go/browse.go:180-180 | a walk in which a browse name ends in a slash, so that a path is not its parent's path, a slash and the name |
| Decimal.NatInjective | src/cs_data_processor-go/jsutil.go:58-66 | digit strings without a leading zero are determined by their value |
| NumberLayout.PrintedNumberParses | src/cs_data_processor-go/jsutil.go:40-87 | for every sign, normalized digits and exponent the printed text reads back as exactly the number |
| Decimal.ReadsAsWritten | src/cs_data_processor-go/jsutil.go:40-87 | the reader reads -12.5e+3 as -125 times ten squared |
| NumberLayout.DistinctNumbersPrintDistinctly | src/cs_data_processor-go/jsutil.go:40-87 | different numbers print differently, the two zeros apart |
| NumberLayout.NamesOfNumbers | src/cs_data_processor-go/jsutil.go:42-53 | NaN, the infinities and both zeros have the names of the standard, and JSON has null for what is not finite |
| NumberLayout.LayoutChoice | src/cs_data_processor-go/jsutil.go:68-87 | an exponent, with its sign, is written exactly outside -6 < n <= 21, a point exactly where digits follow it, it stands at n, and no further byte is written |
| JsonText.JsonString | src/cs_data_processor-go/jsutil.go:230-275 | the scanning loop writes the quoted escaped text |
| JsonText.SanitizeKeepsExactlyUtf8 | src/cs_data_processor-go/jsutil.go:265-271 | replacing malformed bytes leaves exactly well-formed UTF-8 as it is |
| JsonText.WellFormedIsUnicode | src/cs_data_processor-go/jsutil.go:265-271 | the bytes taken as well-formed are exactly the encodings of sequences of Unicode scalar values, as RFC 3629 has them |
| JsonText.MalformedIsEscaped | src/cs_data_processor-go/jsutil.go:265-269 | a malformed byte is written as the escape of the replacement character, and the text stands between quotation marks |
| JsonText.EscapesAreThoseOfStringify | src/cs_data_processor-go/jsutil.go:236-262 | each ASCII character is written as JSON.stringify writes it: by letter where there is one, else by four lower-case hexadecimal digits if it is a control character |
| JsonText.EscapedStringParses | src/cs_data_processor-go/jsutil.go:230-275 | any byte string reads back as itself with malformed bytes replaced, whatever follows the closing quote |
| JsonText.WrittenStringIsUtf8 | src/cs_data_processor-go/jsutil.go:230-275 | what is written is well-formed UTF-8 for any input |
| JsonText.EscapesOnlyWhatItMust | src/cs_data_processor-go/jsutil.go:226-229 | text is written unchanged exactly when it is well-formed and has no quote, backslash or control character |
| JsonDocument.PrintedValueReads | src/cs_data_processor-go/jsutil.go:330-397 | any nested value of doubles, integers, strings, booleans, nulls, arrays, documents and extended types reads back as the same ordered tree |
| JsonDocument.DocumentToJson | src/cs_data_processor-go/jsutil.go:284-326 | the two loops write the document's fields, overridden in place, then the listed overrides it lacks |
| JsonDocument.EmbeddedIsPlainDocument | src/cs_data_processor-go/jsutil.go:352-358 | an embedded document is written as a document without overrides |
| JsonDocument.AssignmentsUpdateFirst | src/cs_data_processor-go/jsutil.go:281-283 | successive property assignments on an insertion-ordered object change the first field of each key and append the missing ones in order |
| JsonDocument.OverridesAreAssignments | src/cs_data_processor-go/jsutil.go:277-326 | the fields written are those of the assigned object if and only if no field repeating an overridden key differs from the override |
| JsonDocument.RepeatedKeyIsReplacedTwice | src/cs_data_processor-go/jsutil.go:292-306 | a document with a key twice shows the difference |
| JsonDocument.DocumentReads | src/cs_data_processor-go/jsutil.go:284-326 | a document with overrides reads back as an object whose members are the overrides' trees and the document's own, in order |
| Radix2.PrintWhole | src/cs_data_processor-go/jsutil.go:128-145 | both ways of printing the integer part, below and above 2^53, give its digits without a superfluous zero |
| Radix2.LargeIsWhole | src/cs_data_processor-go/jsutil.go:134-145 | from 2^53 on a double is whole and is its mantissa shifted by the exponent |
| Radix2.PrintFraction | src/cs_data_processor-go/jsutil.go:151-160 | the doubling loop prints exactly the fraction, at most 1074 digits and the last one a 1, so the limit of 1075 rounds never stops it |
| Radix2.ToStringRadix2 | src/cs_data_processor-go/jsutil.go:112-161 | the text of a finite double has exactly the value (1 + f / 2^52) * 2^(e - 1023), or f / 2^52 * 2^-1022 where e is zero, in the shortest notation; NaN and the infinities have their names |
| Radix2.BitsArePlaces | src/cs_data_processor-go/jsutil.go:112-161 | binary notation is read by places that double from right to left, with 0 and 1 as digits |
| Radix2.CanonicalUnique | src/cs_data_processor-go/jsutil.go:112-161 | a value has only one shortest notation, so the contract of the printer determines its result |
| Radix2.PrintingIsInjective | src/cs_data_processor-go/jsutil.go:112-161 | doubles that print the same text are equal, or both zero |
| Calculations.ChoiceIsLastValid | src/calculations/calculations.go:764-773 | formulas 50 and 51 give the last valid parcel, and the first parcel when none is valid |
| Calculations.ChoiceMeetsCommentIff | src/calculations/calculations.go:764-773 | the choice is the first valid parcel, as the comment asks, if and only if the first and the last valid parcel have the same value |
| Calculations.ChoiceIsNotFirstValid | src/calculations/calculations.go:764-773 | two valid parcels show that this is not the first valid one the comment asks for |
| Calculations.SignsAddAndSubtract | src/calculations/calculations.go:691-750 | a formula of plus and minus signs is the sum of the parcels added less the sum of those subtracted |
| Calculations.Formula13MeetsCommentIff | src/calculations/calculations.go:610-648 | formula 13 agrees with its comment exactly when parcels 23 and 24 cancel out |
| Calculations.Formula5022MeetsCommentIff | src/calculations/calculations.go:1076-1081 | formula 5022 agrees with its comment exactly when the second parcel is zero |
| Calculations.Accumulate | src/calculations/calculations.go:508-514 | the loops of formulas 4 and 10 give the sum or its negation, invalid exactly when a parcel is |
| Calculations.Combine | src/calculations/calculations.go:521-540 | the loops of formulas 6, 7 and 500 say whether all or any parcels are non-zero |
| Calculations.Choose | src/calculations/calculations.go:764-773 | the loop of formulas 50 and 51 gives the choice characterized by ChoiceIsLastValid |
| Calculations.AnyOk | src/calculations/calculations.go:774-782 | formula 52 says whether any parcel is valid |
| Calculations.MaxSpan | src/calculations/calculations.go:783-798 | formula 53 gives the difference of the largest and the smallest parcel |
| Calculations.Decide | src/calculations/calculations.go:751-1042 | the branches of formulas 26, 54, 203 and 231, with their overwritten values and flags, give the outcomes specified |
| Calculations.Compare | src/calculations/calculations.go:928-978 | the branches of formulas 216 and 218 to 221 give the outcomes specified, 220 and 221 the lowest and highest of the two parcels |
| Calculations.IntervalsDifferAtEnds | src/calculations/calculations.go:928-960 | the closed interval of formula 216 and the half-open ones of 218 and 219 differ exactly where the first parcel lies on the open end |
| Calculations.DoublePointFromTwo | src/calculations/calculations.go:799-819 | two valid signals that differ give the first one's state; equal ones are invalid and in transition |
| Calculations.LowerAndHigher | src/calculations/calculations.go:961-978 | formulas 220 and 221 choose the lower and the higher of two parcels, keep their sum, and are invalid exactly when one of them is |
| Calculations.Compute | src/calculations/calculations.go:483-1142 | the formula switch, with the loops and branches above, evaluates each formula on the values read; what that is the following rows say |
| Calculations.SumFormulas | src/calculations/calculations.go:508-514 | formula 4 gives zero for nothing and adds each further parcel, 10 is its negation, both invalid exactly when a parcel is |
| Calculations.LogicFormulas | src/calculations/calculations.go:521-540 | formula 6 is one exactly if every parcel is non-zero, 7 and 500 if some parcel is, 52 if some is valid, and zero otherwise |
| Calculations.ChoiceFormulas | src/calculations/calculations.go:764-773 | formulas 50 and 51 give the last valid parcel, and the first if none is valid |
| Calculations.SpanFormula | src/calculations/calculations.go:783-798 | formula 53 gives the largest difference of two parcels |
| Calculations.MiddleBandFormula | src/calculations/calculations.go:751-762 | formula 26 gives one within 0.5, zero beyond 1.4 and the second parcel between |
| Calculations.SelectionFormulas | src/calculations/calculations.go:851-862 | formula 203 selects by the first parcel, 231 cuts off what is positive, 225 is one for at most one parcel |
| Calculations.DoublePointFormula | src/calculations/calculations.go:799-816 | formula 54 is transient exactly for equal signals, invalid for these and for invalid parcels, and gives the first signal, or one where only the second is zero |
| Calculations.IntervalFormulas | src/calculations/calculations.go:928-960 | formulas 216, 218 and 219 are one exactly inside their intervals and as valid as the first parcel |
| Calculations.PlusMinusFormulas | src/calculations/calculations.go:691-1141 | each formula that adds parcels and then subtracts others applies to its own number of parcels and is the sum of its first a less that of the other b, by a table of a and b |
| Calculations.OtherWeights | src/calculations/calculations.go:558-1124 | formulas 11, 13, 202, 5000, 5041, 5043 and 5406 weigh their parcels as the code does |
| Calculations.OneParcelFormulas | src/calculations/calculations.go:685-690 | formulas 14, 204, 5172, 5173 and 5174 scale their one parcel |
| Calculations.PartsAreSums | src/calculations/calculations.go:691-1141 | the part of a list of parcels is the sum of their values |
| Calculations.AppliesExactly | src/calculations/calculations.go:483-1142 | a formula gives a result exactly for its own number of parcels |
| Calculations.Engine.Refill | src/calculations/calculations.go:454-468 | after reading the rows every parcel and calculated point reads as in the database, missing ones as zero and valid |
| Calculations.Engine.Cycle | src/calculations/calculations.go:454-1171 | whatever order the points are taken in, the cycle writes the same updates: once each point whose result differs from the snapshot |
| Calculations.WrittenBackIsStep | src/calculations/calculations.go:1152-1171 | if calculated points are stored as calculated, the changed-only updates, stored in any order, take the database to the one where every calculated point has its result on the snapshot |
| Calculations.AppliedUpdateIsQuietIff | src/calculations/calculations.go:1152-1171 | a point that is none of its own parcels is not written again after its update is converted and stored, if and only if the conversion keeps its result |
| Calculations.Converges | src/calculations/calculations.go:454-1171 | with results stored at once, from cycle k on a point of depth at most k has the value and invalid flag of its recursive evaluation |
| Calculations.SettledCyclesAreQuiet | src/calculations/calculations.go:1152-1171 | with results stored at once, cycles write nothing once all depths are covered |
| Calculations.RunsConverge | src/calculations/calculations.go:424-1171 | in every run with constant inputs whose updates are stored as calculated within d cycles, repeatedly and in any order, a point of depth at most k has its recursive value from cycle k * (2d + 1) on, and nothing is written once all depths are covered |
| Calculations.PromptRunIsIteration | src/calculations/calculations.go:424-1171 | a run whose updates are stored before the next cycle reads is the iteration that Converges speaks of |
| Calculations.SelfNegationNeverSettles | src/calculations/calculations.go:551-557 | a point that is its own parcel can change in every cycle, so acyclic parcels are needed |
| AnalogPoint.ConversionIsIdentityIff | src/cs_data_processor-go/process.go:406-416 | every value is stored as it comes from the source if and only if the factor is one, the offset zero and there is no zero dead band |
| AnalogPoint.ConversionIsAffine | src/cs_data_processor-go/process.go:406-416 | the conversion is the affine function of factor and offset, and zero inside the zero dead band |
| AnalogPoint.Point.HandleChange | src/cs_data_processor-go/process.go:406-766 | one change to an analog point: stored fields, range and value events, and historian sample |
| AnalogPoint.Point.CheckLimits | src/cs_data_processor-go/process.go:430-490 | the range is the side the value is on, or the old one inside a hysteresis band; an event is emitted exactly when it changes |
| AnalogPoint.Point.InsertIntoHistorian | src/cs_data_processor-go/process.go:613-631 | a sample is left out exactly when excluded or strictly inside the dead band of the last one |
| AnalogPoint.FirstChangeIsStored | src/cs_data_processor-go/process.go:547-559 | the first change is always stored and makes the fields consistent |
| AnalogPoint.ChangesKeepConsistency | src/cs_data_processor-go/process.go:430-559 | the stored range is always that of the latest value, a skipped update never hides a range change, and alarmed points are out of range |
| AnalogPoint.RangeFollowsLimits | src/cs_data_processor-go/process.go:430-452 | the range stored is 1, -1 or 0 where the value is beyond a limit, or inside both, by more than the hysteresis, and else stays |
| AnalogPoint.AlarmsFollowRanges | src/cs_data_processor-go/process.go:437-490 | a point goes into alarm when its range changes to one outside the limits, leaves it when the value is inside by more than the hysteresis, and else keeps it; just the changes of range are events and carry the alarm stored |
| AnalogPoint.UnwatchedHaveNoRange | src/cs_data_processor-go/process.go:430-434 | without limits, or disabled, there is no range and no range event; disabled points have no events and no alarm |
| AnalogPoint.ValueEventsExactly | src/cs_data_processor-go/process.go:492-530 | a value event is emitted exactly for points marked for events and not disabled, if the update has a date or is valid and changes the value |
| AnalogPoint.ChangeIsShown | src/cs_data_processor-go/process.go:547-560 | after any change, stored or not, the fields show its value, validity and source time |
| AnalogPoint.NothingNewIsStored | src/cs_data_processor-go/process.go:547-560 | a change that says nothing new, not forced, leaves the fields and the history alone |
| AnalogPoint.StoredIsSampled | src/cs_data_processor-go/process.go:613-640 | a stored change is sampled always without a historian period, never with a negative one or when excluded, and else unless nearer than the dead band to the last sample |
| AnalogPoint.RunsKeepConsistency | src/cs_data_processor-go/process.go:430-559 | after any run of changes the fields are consistent and hold the latest value |
| AnalogPoint.ChangesAreApart | src/cs_data_processor-go/process.go:437-451 | successive range changes are more than twice the hysteresis apart in value |
| AnalogPoint.ChatterBound | src/cs_data_processor-go/process.go:430-490 | over any run (range changes - 1) * 2h is at most the travel of the value, and less if there are two |
| AnalogPoint.HistoryStaysClose | src/cs_data_processor-go/process.go:613-640 | the stored value stays strictly within the dead band of the last sample, and a value is sampled exactly when it is outside |
| AnalogPoint.SamplesAreApart | src/cs_data_processor-go/process.go:613-640 | consecutive samples differ by at least the dead band, and samples * d is at most the travel since the last one |
| AnalogPoint.DeadBandBoundsHistory | src/cs_data_processor-go/process.go:613-766 | from a new point on: the first change is sampled, samples are spaced, and (samples - 1) * d is at most the travel |
| ChangePipeline.Processor.SubmitEvent | src/cs_data_processor-go/process.go:101-116 | an undisturbed submission queues the event, dropping and counting the oldest one when the queue is full |
| ChangePipeline.StepKeepsInv | src/cs_data_processor-go/process.go:101-151 | every step of reader, dispatcher and workers keeps order, bounds and accounting of each worker's events |
| ChangePipeline.PerPointOrder | src/cs_data_processor-go/process.go:118-151 | in every reachable state the handled events of a point are in submission order and come from one worker |
| ChangePipeline.RoutedByHash | src/cs_data_processor-go/process.go:121-151 | the dispatcher hands an event to the worker given by the hash of its point, as soon as that inbox, of a worker's share of the queue and one, has room |
| ChangePipeline.Conservation | src/cs_data_processor-go/process.go:101-151 | in every reachable state each submitted event is in exactly one place or lost, the drop counter counts the lost ones, and submitted = dropped + queued + in flight + handled |
| ChangePipeline.OnlyTheOldestIsDropped | src/cs_data_processor-go/process.go:104-114 | an event is lost only as the oldest queued one; the event being submitted never is |
| ChangePipeline.UndisturbedSubmit | src/cs_data_processor-go/process.go:101-116 | the steps of the reader alone come to what SubmitEvent does |
| ChangePipeline.NeverStuck | src/cs_data_processor-go/process.go:121-151 | while an event is on its way some step is possible |
| ChangePipeline.SubmittedIsWorkedOff | src/cs_data_processor-go/process.go:121-151 | without submissions the steps left are bounded, and a run that cannot go on has handled or dropped everything |
| RealtimeUpdates.BuildModels | src/cs_data_processor-go/writers.go:119-132 | the model list is, for each update in order, its set operation and then its add-to-set operation if it has one |
| RealtimeUpdates.OperationsOfUpdates | src/cs_data_processor-go/writers.go:119-132 | every update is set once, with its own fields and in order, every addition asked for is made once, right after the set of its point, and there is nothing else |
| BatchingWriter.Writer.FlushBatch | src/cs_data_processor-go/writers.go:63-81 | a flush disarms the timer, takes out a waiting tick and hands over a non-empty batch |
| BatchingWriter.Writer.OnReceive | src/cs_data_processor-go/writers.go:88-101 | a received item joins the batch, which is flushed when full or without linger, else the timer runs |
| BatchingWriter.Writer.OnTick | src/cs_data_processor-go/writers.go:102-104 | a tick flushes the batch |
| BatchingWriter.Writer.OnCancel | src/cs_data_processor-go/writers.go:85-87 | the end of the context flushes the batch and ends the writer |
| BatchingWriter.StepKeepsInv | src/cs_data_processor-go/writers.go:306-365 | every step keeps timer, sizes and order as BatchesAreExact states them |
| BatchingWriter.BatchesAreExact | src/cs_data_processor-go/writers.go:55-107 | in every run batches and current batch are what was received, sizes are from one to the maximum, something waits exactly when the timer is armed with the oldest item's deadline, and nothing is left at the end |
| BatchingWriter.NoStaleTick | src/cs_data_processor-go/writers.go:63-81 | a tick only ever flushes a batch whose oldest item has waited the linger time |
| BatchingWriter.FlushedOnlyWhenDue | src/cs_data_processor-go/writers.go:83-107 | a step hands over the batch exactly if it is full or there is no linger time, its timer has run out, or the context ends |
| BatchingWriter.TimerRunsOutExactly | src/cs_data_processor-go/writers.go:94-104 | the timer has run out exactly when the oldest item has waited the linger time |
| BatchingWriter.BatchingIsTransparent | src/cs_data_processor-go/writers.go:55-132 | cut into batches or not, the same operations are written in the same order |
| FlushScheduler.RtFlusher.QueueRtUpdate | src/cs_data_processor/cs_data_processor.js:184-190 | an update is queued and a flush scheduled unless one is scheduled or running |
| FlushScheduler.RtFlusher.ProcessRtDataMongoUpdates | src/cs_data_processor/cs_data_processor.js:205-250 | the callback drains the whole queue into one write, or does nothing without connection or updates |
| FlushScheduler.RtFlusher.WriteDone | src/cs_data_processor/cs_data_processor.js:269-272 | after the write updates that came meanwhile schedule another flush |
| FlushScheduler.StepKeepsInv | src/cs_data_processor/cs_data_processor.js:196-274 | at most one callback and one write exist, never both, and every update is drained once, in order |
| FlushScheduler.WakeUpIsLostExactly | src/cs_data_processor/cs_data_processor.js:206-214 | a step leaves waiting updates without a flush exactly when the flush runs unconnected |
| FlushScheduler.TimerWakes | src/cs_data_processor/cs_data_processor.js:273-274 | after the fallback timer a flush is scheduled or running |
| FlushScheduler.NoLostWakeUp | src/cs_data_processor/cs_data_processor.js:184-274 | in every run at most one write is in flight and updates are written, in flight or waiting in their order; if flushes find a connection, waiting updates have a flush coming |
| FlushScheduler.EverythingIsWritten | src/cs_data_processor/cs_data_processor.js:184-274 | connected and without new updates the loop rests within three callbacks, with everything written |
| FloodLimiter.MonItem.Allow | src/OPC-UA-Client-Go/subscribe.go:64-74 | a value opens a window after a second, is accepted up to the limit, and the first refusal of the window is reported |
| FloodLimiter.MonItem.HandleNotification | src/OPC-UA-Client-Go/subscribe.go:259-272 | each value is queued or counted as flooding; queued plus flooded stays the number of events |
| FloodLimiter.FloodBound | src/OPC-UA-Client-Go/subscribe.go:59-74 | for non-decreasing times any half-open second delivers at most 399 values |
| FloodLimiter.AtMost399InAnySecond | src/OPC-UA-Client-Go/subscribe.go:59-74 | the same from any state whose window began before the second |
| FloodLimiter.BoundIsReached | src/OPC-UA-Client-Go/subscribe.go:59-74 | 400 arrivals that deliver 399 values in one second |
| FloodLimiter.WithinLimitAllIsDelivered | src/OPC-UA-Client-Go/subscribe.go:59-74 | an item with at most 200 values in any second delivers all of them, without a warning |
| FloodLimiter.PauseEndsRefusal | src/OPC-UA-Client-Go/subscribe.go:64-68 | a value a second or more after its window began is delivered, whatever was refused |
| FloodLimiter.NothingUnaccounted | src/OPC-UA-Client-Go/subscribe.go:260-272 | delivered plus refused is offered |
| FloodLimiter.OneWarningPerOverflow | src/OPC-UA-Client-Go/subscribe.go:62-74 | there is exactly one warning for each window that gets more than the limit |
| FolderTree.Namespace.FolderFor | src/OPC-UA-Server/index.js:579-586 | the folder of a path is found in the list or added once under its parent |
| FolderTree.Namespace.Group1Pass | src/OPC-UA-Server/index.js:567-587 | the first pass puts every tag without a browse path into the root or its group1 folder |
| FolderTree.Namespace.NextGroupPass | src/OPC-UA-Server/index.js:589-644 | the second and third pass move tags with a further group into its folder and leave the others |
| FolderTree.Namespace.BuildFolders | src/OPC-UA-Server/index.js:562-644 | after the passes every tag without a browse path is in the folder of its longest non-empty group prefix, with one folder for each path, none unneeded, and nothing else changed |
| FolderTree.ParentHasShorterPath | src/OPC-UA-Server/index.js:589-644 | a folder's parent is the only folder of its path shortened by one |
| FolderTree.FullPathIsLongest | src/OPC-UA-Server/index.js:567-634 | a tag's path is its groups up to the first empty one |
| FolderTree.PrefixesHaveFolders | src/OPC-UA-Server/index.js:562-644 | every prefix of a folder's path has exactly one folder |
| FolderTree.SameFolderIffSamePath | src/OPC-UA-Server/index.js:600-602 | two tags share a folder exactly when they have the same groups up to the first empty one, so equal names under different parents stay apart |

## Left out

- MongoDB, PostgreSQL, OPC UA and file I/O, reconnects, event texts, qualifiers, logging and metrics output: steps that read or write are abstract.
- Binary64 rounding, overflow and NaN in calculations, limits and dead bands: arithmetic is on reals. Shortest decimal digits and the formatter of the Go library are inputs or library functions. Quantile targets are the fractions 1/2, 9/10, 99/100 and 999/1000, compared exactly.
- Wrap-around of the 64-bit sum and counters of the histogram, and of the 32-bit batch limit of the browse.
- Loss by full write channels and by missing database handles during a flush: the writers' properties are about what is handed to the database, and the order of effects of an unordered bulk write is not claimed.
- RedundancyProtocol.NoFalseTakeover: assumes that no two writes carry the same tag, that a write sent may land late or never but not twice, and that the ticks of one node do not overlap; the ticks of different nodes do.
- RedundancyProtocol.LoneStandbyTakesOver: a node that was already active is covered by RedundancyNode.TakeoverExactly.
- RedundancyProtocol.ConvergenceCondition: ticks of one node do not overlap; a timer that starts a second read while the first is unanswered is not modelled. Unawaited writes are.
- RedundancyProtocol.TwoCandidatesCanBothStayActive: needs a document that is enabled and admits every node.
- BrowseCompleteness.CompletenessCondition: speaks of a finite address space that does not change, with pruning that goes by the node, and of every order of answers and refusals; which of these orders a server brings about within 128 requests is not decided. An exact condition for finding every node, rather than for receiving every reference, is not given: it would have to tell which shadowed nodes one order of answers loses together.
- BrowseWalk.BreadthFirst: with refusals the order is that of BrowseWalk.ExploreLevel, round by round.
- BrowseCompleteness.DiagnosticsArePrunedByNode: which ids are those of the diagnostics nodes is a parameter.
- BrowseWalk.BrowseFullAddressSpace: errors of continuation requests are not modelled, pages behind a continuation point are finite, an answer has no more results than nodes were asked for, and the server index of expanded node ids is dropped. The choice of pruned diagnostics and the root's name are parameters.
- JsonDocument.PrintedValueReads: the reader takes no insignificant white space and no surrogate escapes, which the printer never writes. Dates, object ids, patterns, code and decimals are given by their text.
- JsonDocument.OverridesAreAssignments: the order lists each override once, as its caller does.
- NumberLayout.PrintedNumberParses: digits are normalized, without leading or trailing zero, as the shortest formatting gives them.
- Calculations.RunsConverge: calculated points are stored as calculated, with factor one, offset zero and no zero dead band, and updates reach the database within d cycles; with other conversions the stored value is not the result and cycles need not come to rest (AppliedUpdateIsQuietIff).
- Calculations.Converges: the ideal in which results are stored at once; runs with conversion and delay are those of RunsConverge. In both inputs, clock included, are constant, every calculated point is in the database, and the formulas with square roots, quotients of parcels and the clock are an arbitrary function of formula and parcels that is computed when the number of parcels fits.
- Calculations.Compute: formulas 50, 51 and 54 without parcels index an empty list in the source and are excluded; formula 53 without parcels overflows there.
- Calculations.MaxSpan: takes values in the range of finite doubles, as all values of the source are.
- Calculations.Engine.Cycle: the transient flag goes along with an update but does not cause one.
- AnalogPoint.Point.HandleChange: analog points with all fields present and fixed limits; historical backfill, non-numeric values, beep and counter points are left out.
- AnalogPoint.ChatterBound: requires lo <= hi and a hysteresis that is not negative.
- ChangePipeline.Conservation: the change queue holds at least one event; an unbuffered channel is not modelled. One reader submits, as in the source.
- FlushScheduler.NoLostWakeUp: a flush that throws outside the awaited write is not modelled.
- BatchingWriter.BatchesAreExact: the timer is a clock with one deadline; how long a select takes to notice it is not bounded.
- FloodLimiter.MonItem.HandleNotification: conversion of values and the bound of the shared queue are left out.
- FolderTree.Namespace.BuildFolders: folders of tags with a browse path are left out, and the dictionaries are plain maps, without inherited keys.
- LatencyHistogram.Histogram.Snapshot: a snapshot taken while other threads record is not modelled.
