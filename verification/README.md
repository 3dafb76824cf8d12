# MSCA, modelled and proved in Dafny

MSCA is an append-only columnar store. Accumulators collect rows column by column; each commit appends one
self-describing segment to a file and records in a manifest where every column's bytes lie; queries first
clear whole buffers from a bit mask by means of statistics, then decode and test what is left.

This project models the three layers and joins them:

- **Codec** (`Types`, `Numbers`, `Accumulate`, `Read`, `RoundTrip`, `Column`, `Stats`, `Narrowing`): column types
  as a recursive datatype, the numbers their bit patterns encode, push-driven accumulators, the bit-level
  serialized form, the stateful cursors that decode it, the state machine that coalesces equal rows, and the
  statistics recorded beside a buffer.
- **File** (`Layout`, `Pieces`, `Segment`, `Registry`, `File`, `History`, `Compose`, `Dataset`, `Capacity`):
  framing, alignment, the separate computation of bytes and of the descriptors that locate them, the five phases
  of a commit as a state machine over file bytes, invariants over every sequence of commits, and when a commit
  succeeds.
- **Query** (`Query`, `Pruning`, `Window`, `Meaning`, `Limits`, `Stream`, `Joins`, `Composite`, `Derive`,
  `Generated`, `Answers`): resolution of filters, windows and Boolean trees to one mask, the lazy item stream, the
  code generated for composite rows at every number of fields, and what queries answer, stated on the rows alone.

`EndToEnd` joins the layers over a described region and `Runs` over every run of commits: what a query yields is
stated in terms of the rows that were pushed. `Example` builds one small run. `Intern` and `Dictionary` model the
stable interning built on top. `Damage` states what is refused or reported when bytes are not what was written.

Some laws hold under conditions only. Each comes with a concrete input that breaks it and the exact condition
under which it holds:

- a nested sequence column without flattened elements, whose element type is framed, is written but cannot be
  read back (`EmptyNestedRowIsLost`, `ColumnRoundTrip`);
- two-phase reading may miss rows. An equality filter does, in a buffer judged by statistics, when the wanted
  item or the first item of that buffer is unordered, that is, NaN (`OpeningNaNHidesMatch`). A filter behind
  `is_some` on an option that is stored next to a bit mask does, since the narrowed item type selects the plain
  reader, which takes the length prefix of that mask for the item of a compact buffer (`NarrowingHidesMatch`).
  A filter that takes whole options, as a semi join of two columns of optional nonzero numbers does, loses
  absent rows, since only present items have statistics (`AbsentKeyMissed`).
  `TwoPhaseExact` states for every chain which rows are found: those in buffers that every filter spares.
  `MatchExact`, `MembershipExact`, `NarrowedExact`, `WholeMatchExact`, `WholeKeysExact` and `WholeRangeExact`
  spell this out for the filters concerned;
- Boolean trees inherit these limits from their legs, and an `is_some` leg drops rows without the item even from a
  disjunction whose other leg accepts them (`AbsenceDropsRow`). `CompositeExact` states which rows are found.

Where code and documentation disagree the model follows the code. `doc/write-cycle.md` describes a commit that
writes the new manifest before the segment and never overwrites the old one; `msca-core/src/io.rs:644-662`
writes the segment over the old manifest, then the new manifest, then the header. `doc/query-filters.md` says
that limit and offset apply to filtered rows; the code counts positions in buffers, so the naive meaning is
proved for windows below the filters.

Assumptions, stated as preconditions: the checksum is some 64-bit function of the bytes, CBOR decodes the
manifest that was encoded (needed for reopening a file only; an empty document is an error, as in the code),
`usize` has 64 bits, and a column holds fewer than 2^64 - 1 flattened elements. The field order of a composite
and the column order of its schema are both name order, so columns are matched by position.

## Model

| member | source | states |
|---|---|---|
| Bytes.LeRoundTrip | msca-core/src/io.rs:895-973 | a number that fits its width survives little-endian encoding and decoding |
| Bytes.BitsRoundTrip | msca-core/src/accumulate.rs:1972-1994 | unpacking restores every packed bit; only zero fill follows |
| Bytes.LeDigit | msca-core/src/io.rs:895-973 | byte `i` of an encoded number is its digit of weight 256 to the power of `i` |
| Bytes.PackedBit | msca-core/src/accumulate.rs:1972-1994 | bit `i` of a mask is binary digit `i % 8` of byte `i / 8` |
| Types.BitMatchIsEquality | msca-core/src/schema.rs:802-1010 | bit identity, compared component by component, is equality of items, NaN included |
| Numbers.ItemsOfKind | msca-core/src/io.rs:975-1175 | the items of a kind are all numbers of its width, without zero or without what is no Unicode scalar value; absence is encoded in the item itself if and only if its pattern is none of them |
| Numbers.SignedOrder | msca-core/src/io.rs:1015-1093 | two's complement patterns compare exactly as the integers they encode |
| Numbers.SignedPatterns | msca-core/src/io.rs:1015-1093 | every pattern of a signed integer's width encodes an integer |
| Numbers.FloatOrder | msca-core/src/io.rs:1135-1165 | float patterns compare exactly as the numbers that sign, exponent and fraction encode, subnormal numbers, zeros and infinities included; NaN compares with nothing |
| Numbers.OrderIsNumeric | msca-core/src/accumulate.rs:1109-1134 | the comparison behind statistics and ranges is that of the encoded numbers, for every kind |
| Accumulate.FrameExact | msca-core/src/io.rs:326-358 | a framed region is length prefix, body and padding, exactly as long as predicted |
| Accumulate.SizeIsExact | msca-core/src/accumulate.rs:1903-2116 | whenever the checked size prediction succeeds, serialization succeeds and writes exactly that many bytes, at any nesting depth |
| RoundTrip.FrameRoundTrip | msca-core/src/io.rs:360-384 | reading a framed region yields its body and leaves the source exactly at what follows |
| Damage.FramesExactly | msca-core/src/io.rs:360-384 | a region is read if and only if a nonzero length prefix is followed by that many bytes and their padding |
| RoundTrip.AccIsColumnar | msca-core/src/accumulate.rs:607-795 | pushing items one at a time builds the columnar layout of all of them: validity bits, cumulative ends, flattened data |
| RoundTrip.OptionalEnds | msca-core/src/accumulate.rs:740-775 | ends of present rows count the elements pushed so far, never decrease and end at the flattened count; absent rows carry the sentinel |
| RoundTrip.NextPays | msca-core/src/read.rs:202-376 | one pull from a cursor that owes rows yields the next row and leaves a cursor that owes the others, through every nested cursor |
| RoundTrip.ColumnRoundTrip | msca-core/src/read.rs:93-376 | reading a serialized column back returns the pushed rows if and only if no level is empty below framed elements; otherwise it fails as truncated |
| RoundTrip.OneRoundTrip | msca-core/src/read.rs:192-273 | the single item of a compact body is read back if and only if it is decodable |
| RoundTrip.EmptyNestedRowIsLost | msca-core/src/read.rs:336-353 | an empty list of lists is written and then cannot be read |
| Damage.AnyBytes | msca-core/src/read.rs:202-218 | from any bytes, a column of numbers yields one number or error per complete group of bytes, then an error at every pull if bytes are left over |
| Damage.CollectIsPull | msca-core/src/read.rs:336-353 | from any bytes, gathering items is pulling them, the first error among them being the result |
| Damage.RowIsPulled | msca-core/src/read.rs:336-376 | from any bytes, a row of a sequence column holds the elements pulled between two ends, or fails with the first error among them |
| Damage.OneIsFirst | msca-core/src/read.rs:192-273 | from any bytes, reading one item without a stream is the first pull of the stream, errors included |
| Damage.EndsInDisorder | msca-core/src/read.rs:336-376 | an end before the previous one is an error in a column of lists, and an empty row where rows may be absent; a remnant of an end is an error at every pull |
| Damage.NothingToRead | msca-core/src/read.rs:192-273 | no type reads an item from an empty body |
| Column.Buffer.Push | msca-core/src/accumulate.rs:816-827 | a column represents exactly the rows pushed: compact if and only if they are nonempty and identical, otherwise the fresh inner accumulator of the same rows; a materialised column stays so |
| Column.Buffer.Upgrade | msca-core/src/accumulate.rs:528-541 | materialising a repeated item equals pushing every repetition and then the new item |
| Column.Buffer.Discard | msca-core/src/accumulate.rs:829-831 | discarding leaves a vacant column |
| Column.Buffer.Count | msca-core/src/accumulate.rs:841-847 | the count is the number of pushed rows |
| Column.Buffer.IsEmpty | msca-core/src/accumulate.rs:833-839 | a column is empty if and only if nothing was pushed |
| Column.ManyIsFinal | msca-core/src/accumulate.rs:820-827 | no further pushes make a materialised column compact again |
| Column.StoredReadsBack | msca-core/src/query/mod.rs:994-1021 | a stored buffer, compact or not, reads back as its rows if and only if they are decodable |
| Stats.FindIndexIsExtreme | msca-core/src/io.rs:200-216 | the located item is an extreme among ordered items; an unordered item wins only by coming first, and then stays |
| Stats.StatisticsEnclose | msca-core/src/accumulate.rs:1090-1134 | the recorded minimum and maximum sectors lie in the column body and hold stored items that enclose every ordered item |
| Stats.DisjointIsSound | msca-core/src/manifest.rs:445-461 | if statistics are disjoint from a range, no stored item lies in the range, with unordered items, statistics and bounds |
| Stats.DisjointExactly | msca-core/src/manifest.rs:445-461 | the disjointness test succeeds if and only if the first item is ordered and all ordered items miss the same ordered bound |
| Stats.NumbersAreDetailed | msca-core/src/accumulate.rs:1090-1134 | every numeric column that holds a present item is described with statistics |
| Answers.StatisticsAreExtremes | msca-core/src/accumulate.rs:1090-1134 | the recorded statistics read as numbers of the rows, and, unless the first number is NaN, are their least and greatest, as numbers |
| Stats.StoredItemSpanned | msca-core/src/query/mask.rs:308-317 | a stored item lies between the statistics if and only if it and the first item are ordered |
| Stats.PartitionPoint | msca-core/src/query/mask.rs:348-357 | bisection finds the end of the leading part of a partitioned list |
| Stats.BisectionAgreesWithScan | msca-core/src/query/mask.rs:348-357 | comparing two partition points decides whether a sorted list has a candidate between the statistics |
| Query.TryExclude | msca-core/src/query/mod.rs:333-347 | in place: clears exactly the set bits whose buffers fail the test, returns the number left, stops at the first error |
| Query.SkipBuffers | msca-core/src/query/mask.rs:453-477 | in place: the walk of a skip, as the recursive specification |
| Query.TakeBuffers | msca-core/src/query/mask.rs:486-516 | in place: the walk of a take, as the recursive specification |
| Query.ClearBehind | msca-core/src/query/mask.rs:510-513 | clears every bit behind the last retained buffer and no other |
| Query.ResolveChain | msca-core/src/query/mask.rs:262-517 | in place: phase one of a chain of adapters, as the recursive specification, errors included |
| Pruning.StoredStatistics | msca-core/src/query/mod.rs:902-906 | the recorded statistics of a stored buffer decode to stored items that enclose the ordered ones |
| Damage.StatisticExactly | msca-core/src/query/mod.rs:902-906 | a statistic is read if and only if its sector lies in the mapped bytes and begins with an item of its kind |
| Pruning.AcceptedIsAdmitted | msca-core/src/query/mask.rs:279-398 | items leave room for a filter that accepts one of them if and only if the statistics discern the match: an ordered candidate and first item for equality, an enclosed candidate for membership, always otherwise |
| Pruning.PresentIsAdmitted | msca-core/src/query/mask.rs:279-398 | items leave room for a filter on whole options that accepts a present row of theirs |
| Narrowing.NarrowedBody | msca-core/src/query/mod.rs:809-815 | behind `is_some`, a niche or sequence option is read as its plain item |
| Narrowing.PlainReadsPrefix | msca-core/src/query/mod.rs:867-873 | the plain reader sees the length prefix of the mask in every compact buffer of a masked option |
| Pruning.JudgeIsRoom | msca-core/src/query/mod.rs:861-915 | judging a stored buffer never fails and keeps it if and only if its rows leave room for the filter, in terms of the rows alone: the item a compact buffer is read as, misread ones included, or what the present items enclose, for filters on items and on whole options |
| Pruning.PassingIsSpared | msca-core/src/query/mask.rs:262-398 | a buffer holding a row that passes a filter is kept if and only if the filter spares it |
| Pruning.RangeClearsExactly | msca-core/src/query/mask.rs:279-298 | a range over items, or over whole options held in a niche, clears a buffer with statistics if and only if its first item is ordered and all its ordered items miss the same ordered bound |
| Pruning.DisjointRows | msca-core/src/manifest.rs:445-461 | if statistics are disjoint from a range, no row lies in it, absent rows included; from a range of whole options, at most the absent row does |
| Pruning.WholeMatchAdmitted | msca-core/src/query/mask.rs:308-317 | the statistics of a stored buffer of options admit a wanted row of the buffer, compared as a whole option, if and only if that row is present |
| Pruning.LiftedEncloses | msca-core/src/read.rs:874-886 | statistics of the present items are statistics of the options, absent ones sorting below all others |
| Pruning.SortedAgreesWithScan | msca-core/src/query/mask.rs:320-358 | on types without unordered items, a sorted candidate list prunes and filters exactly as the same list scanned in full |
| Window.SharesAddUp | msca-core/src/query/mask.rs:447-517 | the buffers' shares of a window concatenate to the window |
| Window.SkipEnds | msca-core/src/query/mask.rs:453-477 | where a skip ends: cleared buffers plus remainder are exactly the items to skip |
| Window.TakeEnds | msca-core/src/query/mask.rs:486-516 | where a take ends: kept buffers plus remainder are exactly the items to take |
| Window.MarksSelect | msca-core/src/query/mod.rs:1431-1437 | remainders read against any smaller mask select the rows of the naive window that lie in the buffers left |
| Window.MarksLoseNothing | msca-core/src/query/mask.rs:447-517 | buffers cleared by a window hold no row of it |
| Window.SkipTakeMarks | msca-core/src/query/mask.rs:486-516 | a take above a skip ends at the naive position, the skip's remainder included |
| Window.TakeSkipMarks | msca-core/src/query/mask.rs:453-477 | a skip above a take begins and ends at the naive positions |
| Meaning.ThroughMeans | msca-core/src/query/mod.rs:1218-1418 | a row comes through the item adapters included, as its image, if and only if it passes every filter, on its item or as a whole option; otherwise excluded, or absent if an `is_some` finds no item |
| Meaning.ChainMask | msca-core/src/query/mask.rs:262-445 | from any mask, phase one of any chain of filters above a window never fails and leaves exactly the buffers whose rows leave room for every filter |
| Meaning.PassingSpares | msca-core/src/query/mask.rs:262-445 | a buffer holding a row that passes all filters is left if and only if every filter spares it |
| Meaning.SaturatedTake | msca-core/src/query/mask.rs:486-489 | a take that saturates at the greatest integer still reaches past the last row |
| Meaning.TwoPhaseExact | msca-core/src/query/mask.rs:262-517 | any chain of filters above at most one skip and one take never fails and yields, in order, the passing rows of the naive window that lie in spared buffers; that is the naive result if and only if every buffer with a passing row of the window is spared by every filter |
| Meaning.TwoPhaseMeaning | msca-core/src/query/mask.rs:262-517 | where no equality meets NaN, no filter stands behind `is_some` on an option next to a mask, and no filter on whole options judges absent rows by statistics, two-phase reading yields what decoding all rows, applying the window and then filtering yields |
| Answers.ChainFinds | msca-core/src/query/mod.rs:1212-1427 | a chain of filters yields, in order, the rows of the window that satisfy the test of each filter and lie in spared buffers, and finds all it should if and only if these are all such rows |
| Answers.WhereFinds | msca-core/src/query/mod.rs:1212-1233 | a predicate yields exactly the present rows of the window whose item satisfies it |
| Answers.RangeFinds | msca-core/src/query/mod.rs:1235-1256 | a range yields exactly the rows of the window whose number lies between its bounds, included or excluded, as numbers |
| Answers.UnsignedRange | msca-core/src/query/mod.rs:1235-1256 | over unsigned integers, a half-open range yields exactly the rows of the window with `lo <= n < hi` |
| Answers.EqualFound | msca-core/src/query/mod.rs:1258-1278 | an equality filter yields exactly the rows holding the wanted item in the buffers it spares, and finds everything if and only if these are all |
| Answers.ListedFound | msca-core/src/query/mod.rs:1280-1301 | a list filter yields exactly the rows holding a listed item in the buffers it spares, and finds everything if and only if these are all |
| Answers.SortedFound | msca-core/src/query/mod.rs:1303-1323 | a sorted filter yields exactly the present rows of the window whose number is listed |
| Answers.MembersFound | msca-core/src/query/mod.rs:1325-1345 | a set filter yields exactly the present rows of the window whose item is a member |
| Answers.PresentFound | msca-core/src/query/mod.rs:1347-1361 | `is_some` yields exactly the items of the present rows of the window |
| Answers.AbsentFound | msca-core/src/query/mod.rs:1363-1381 | `is_none` yields exactly the absent rows of the window |
| Answers.JoinsSplit | msca-core/src/query/mod.rs:1383-1427 | a semi join yields exactly the present rows whose item is a key, an anti join those whose item is none; together they split the present rows of the window |
| Answers.WholeFound | msca-core/src/read.rs:874-886 | filters on whole options yield, absent rows included, exactly the rows they ask for in the buffers they spare; a predicate and an anti join find them all |
| Limits.MatchExact | msca-core/src/query/mask.rs:300-318 | above any window, an equality filter finds every match if and only if, in each buffer judged by statistics of which the window holds the wanted item, that item and the first item are ordered |
| Limits.MembershipExact | msca-core/src/query/mask.rs:320-338 | above any window, a membership filter finds every match if and only if each buffer judged by statistics of which the window holds a candidate opens with an ordered item and has two items around some candidate |
| Limits.WholeExact | msca-core/src/query/mask.rs:279-398 | above any window, a filter on whole options finds everything if and only if each buffer judged by statistics of which the window holds an accepted row, the absent one included, has room for the filter among its present items |
| Limits.WholeMatchExact | msca-core/src/query/mask.rs:300-318 | looking for a whole option finds every match if and only if it is present or no buffer judged by statistics has an absent row in the window |
| Limits.WholeKeysExact | msca-core/src/query/mask.rs:379-398 | a semi join of whole options finds every match if and only if each buffer judged by statistics of which the window holds a key has a present key between two of its items |
| Limits.WholeRangeExact | msca-core/src/query/mask.rs:279-298 | a range over whole options finds everything if and only if each buffer judged by statistics of which the window holds a row in the range has present items on the inner side of both bounds |
| Limits.AbsentKeyMissed | msca-core/src/query/mask.rs:379-398 | an absent row, five and seven: a semi join with the key set of the absent option alone finds nothing |
| Limits.OpeningNaNHidesMatch | msca-core/src/query/mask.rs:300-318 | the floats NaN and one, in this order: looking for one finds nothing |
| Limits.NarrowedExact | msca-core/src/query/mod.rs:861-915 | above any window, a filter behind `is_some` on a masked option finds every match if and only if it accepts the misread item wherever it accepts the item of a compact buffer, and statistics discern the other matches |
| Limits.NarrowingHidesMatch | msca-core/src/query/mod.rs:809-815 | a present `false` in an optional boolean column: looking for `false` behind `is_some` does not find it |
| Stream.ItemSource.Next | msca-core/src/query/mod.rs:952-1021 | each pull yields the next item of the retained buffers, opened lazily and in order; the end is reported only when all are read |
| Stream.RetainedIsStream | msca-core/src/query/mod.rs:318-320 | reading the retained buffers is reading the column under its mask |
| Damage.ErrorsSurface | msca-core/src/query/mod.rs:1202-1210 | whatever the buffers hold, the stream of any chain of filters fails exactly where reading fails, with the same error |
| Damage.NothingPassedOver | msca-core/src/query/mod.rs:994-1021 | reading a column reports a failure if and only if some of its buffers hold rows that cannot be decoded |
| Joins.ResolveInto | msca-core/src/query/mask.rs:519-562 | in place, with a cloned mask and the exclusive and inclusive or: resolution of a Boolean tree, as the recursive specification |
| Joins.TreeKeeps | msca-core/src/query/mask.rs:519-562 | a resolved tree never fails and intersects the mask with its pointwise keep set, stated on the rows, although a disjunction resolves its second leg only where the first cleared |
| Joins.SparedIsKept | msca-core/src/query/mask.rs:533-562 | a buffer holding a row that satisfies the tree is kept if the legs that accept their item of the row spare it, symmetric differences included |
| Joins.ConjunctionKeeps | msca-core/src/query/mask.rs:519-531 | under conjunctions, a buffer holding a satisfying row is kept if and only if every leg spares it |
| Joins.TreeRetains | msca-core/src/query/mask.rs:519-562 | resolution of a tree never fails, sets no cleared bit, and retains every buffer of the mask that holds a satisfying row and is spared by the legs that accept it |
| Joins.OneOperator | msca-core/src/query/mod.rs:630-690 | a conjunction of any shape decides by all legs, a disjunction by some leg, an exclusive disjunction by an odd number of legs |
| Derive.Descent | msca-derive/src/read.rs:170-185 | the generated trait bounds, as a function of the number of fields |
| Derive.DescentFixesLegs | msca-derive/src/read.rs:170-194 | only left-nested trees of the right size meet the bounds, and each leg parameter is then the leg at its field's position |
| Derive.LeftNestedMeets | msca-derive/src/read.rs:170-194 | every left-nested tree meets the bounds |
| Derive.Unpack | msca-derive/src/read.rs:200-215 | the generated unpacking statements, as a function of the number of fields |
| Derive.UnpackBinds | msca-derive/src/read.rs:200-215 | the statements bind every field to the leg at its position, at every number of fields |
| Derive.Ascent | msca-derive/src/read.rs:340-356 | the bounds of the generated iterator, as a function of the number of fields |
| Derive.Verdict | msca-derive/src/read.rs:359-371 | the generated verdict expression, as a function of the number of fields |
| Derive.VerdictDecides | msca-derive/src/read.rs:359-371 | the folded verdict is the tree's decision on the legs' verdicts, at every number of fields, one included, however the levels are named |
| Derive.DescentImpliesAscent | msca-derive/src/read.rs:340-356 | whatever meets the constructor's bounds meets the iterator's |
| Generated.GeneratedIsComposite | msca-derive/src/read.rs:122-148 | every source that meets the generated bounds is a left-nested tree with one leg per field, and the generated bindings, streams and verdict read from it what the tree asks for |
| Generated.OneOperatorVerdict | msca-derive/src/read.rs:359-371 | the generated verdict over one operator asks for all legs, for some leg, or for an odd number of legs, at every number of fields |
| Composite.Reader.Next | msca-derive/src/read.rs:312-331 | every field is pulled before any outcome is inspected; all streams advance together also when one has no item |
| Composite.DrainAll | msca-derive/src/read.rs:312-331 | pulling until the end yields one outcome per row |
| Composite.DrainJudges | msca-derive/src/read.rs:312-331 | lockstep: the k-th pull takes the k-th item of every column; a row is missing if a leg loses its item, and otherwise accepted if and only if it satisfies the tree |
| Composite.CompositeExact | msca-derive/src/read.rs:122-148 | composite reading never fails and accepts, in order, the rows of kept buffers that satisfy the tree and that no leg loses; these are all satisfying rows if and only if none lies in a cleared buffer and none is lost |
| Composite.CompositeMeaning | msca-derive/src/read.rs:122-148 | conjunctions with `is_some`, and all trees without, accept exactly the rows that satisfy the tree among all rows read across, whatever buffers were cleared |
| Answers.SidesSatisfy | msca-core/src/query/mod.rs:630-690 | whatever its legs are, the rows that satisfy a tree are those whose parts satisfy its sides: both for a conjunction, either for a disjunction, exactly one for an exclusive one |
| Answers.OperatorsCombine | msca-core/src/query/mod.rs:630-690 | a tree answers with the rows whose two parts its sides answer with alone: with both for a conjunction, either for a disjunction, exactly one for an exclusive one |
| Composite.ConjunctionLosesNone | msca-derive/src/read.rs:312-331 | under conjunctions, a satisfying row is lost to no absent item |
| Composite.AbsenceDropsRow | msca-derive/src/read.rs:315-324 | under a disjunction, a leg that unwraps an absent item drops a row its sibling accepts |
| Damage.FirstInterrupts | msca-derive/src/read.rs:315-324 | the first field without an item decides what a row is: broken if that field failed, missing if it is absent |
| Pieces.PieceIsValid | msca-core/src/accumulate.rs:891-911 | columns predict their size exactly and their descriptors keep sector and count, as the layout requires |
| Layout.DataIsExact | msca-derive/src/data.rs:173-191 | the folded size is the number of bytes written, which are the columns' regions in order |
| Layout.WalkLocates | msca-core/src/accumulate.rs:895-911 | the threaded walk locates every column's bytes exactly, in order, on eight-byte boundaries and without overlap |
| Segment.FillData | msca-core/src/accumulate.rs:2178-2196 | in place: fills the buffer of a data segment with header, metadata, padding, framed columns and checksum, or fails as the checked arithmetic does |
| Segment.ChecksumVerifies | msca-core/src/io.rs:1360-1395 | verification accepts what checksumming produced and returns the covered bytes |
| Damage.VerifyExactly | msca-core/src/io.rs:1360-1395 | verification accepts exactly what checksumming produces and refuses all other bytes |
| Registry.DataPointsBack | msca-core/src/accumulate.rs:2178-2196 | the fields behind the head of a data segment hold the offset of its schema's segment and the number of its rows |
| Dataset.BatchPointsBack | msca-core/src/accumulate.rs:2178-2196 | behind its head, the data segment of a batch holds the offset of its schema and the number of its rows |
| Registry.InsertAppends | msca-core/src/manifest.rs:390-407 | a buffer behind all others joins the ordered set at the end, so its position is its segment's ordinal |
| Registry.InsertKeepsOrder | msca-core/src/manifest.rs:390-407 | insertion anywhere keeps the order of sectors and every buffer, and adds no sector twice |
| Registry.RegisterWalks | msca-core/src/accumulate.rs:2210-2228 | registration adds to each column exactly the descriptor the walk makes of its piece |
| Registry.RegisterDescribes | msca-core/src/io.rs:644-656 | committing a segment keeps the manifest describing exactly everything committed: every column traced, every binary name sliced to its payload |
| File.CommittedBytesStay | msca-core/src/io.rs:644-662 | at every byte of every write of a commit, the segment region up to the old manifest and the file's identity are unchanged |
| File.HeaderIsWrittenLast | msca-core/src/io.rs:644-662 | at every byte of every write the header is the old one until segment and manifest are complete; whenever the header is being written, all that it will locate is already in place |
| File.CreatedSound | msca-core/src/io.rs:529-551 | a new file is sound |
| File.CommitSound | msca-core/src/io.rs:644-662 | a commit extends the region by exactly the segment, puts the new manifest directly behind it, lets the header locate it, and keeps soundness |
| File.Reopens | msca-core/src/io.rs:571-586 | opening the bytes of any sound file recovers its header and manifest |
| Damage.OpensExactly | msca-core/src/io.rs:571-586 | a file opens with a header and a manifest if and only if it begins with the identity of the format and its header locates the checksummed document of that manifest |
| Damage.OpenRefuses | msca-core/src/io.rs:458-488 | a file that is too short, of another format or of another version is refused as such |
| File.Handle.Create | msca-core/src/io.rs:529-551 | creation yields a sound open file without segments |
| File.Handle.Commit | msca-core/src/io.rs:644-662 | the phases in place: success is the planned commit; failure leaves header and committed bytes unchanged; a refused entry leaves everything unchanged |
| File.Handle.Append | msca-core/src/io.rs:644-662 | soundness of the open file and the log of segments, over every sequence of successful appends; a failure before the first write leaves everything unchanged, a later one the header and all committed bytes |
| File.Handle.Record | msca-core/src/io.rs:651-652 | registration in place, column by column |
| History.RunSound | msca-core/src/io.rs:644-662 | every file reachable by any sequence of commits is sound |
| History.RegionGrows | msca-core/src/io.rs:624-629 | segment regions of earlier states are prefixes of later ones |
| History.SlicesPersist | msca-core/src/io.rs:226-233 | what a sector located after some commits it locates after any further commits |
| History.WalkVisitsSegments | msca-core/src/segment.rs:225-275 | walking from the file header by each segment's own header visits exactly the committed segments and ends at the manifest |
| Capacity.SizeIsLength | msca-core/src/accumulate.rs:1903-2116 | the checked size of a column is its length in terms of its rows, if that stays within 64 bits, and an error otherwise |
| Capacity.CreationSucceeds | msca-core/src/io.rs:529-551 | a file can be created if and only if the empty manifest fits |
| Capacity.SchemaCommits | msca-core/src/io.rs:644-662 | a schema is committed if and only if its name is free, its document is not empty, the segment ends within 64 bits and the manifest it leads to fits; a taken name is a collision |
| Capacity.BinaryCommits | msca-core/src/io.rs:644-662 | a binary is committed if and only if its name is free, its payload is not empty, the segment ends within 64 bits and the manifest it leads to fits; a taken name is a collision |
| Capacity.BatchCommits | msca-core/src/io.rs:644-662 | a batch of typed rows is committed if and only if its schema is known, its segment, whose length follows from the rows, ends within 64 bits and the manifest it leads to fits; an unknown schema is not found |
| Compose.Accumulator.Push | msca-derive/src/data.rs:121-123 | pushing a row advances every field's column by its part of the row |
| Compose.Accumulator.Discard | msca-derive/src/data.rs:125-127 | discarding clears every field |
| Compose.Accumulator.Count | msca-derive/src/data.rs:133-135 | the first field's count is the number of rows |
| Compose.Accumulator.IsEmpty | msca-derive/src/data.rs:129-131 | the first field is empty if and only if no row was pushed |
| Compose.Accumulator.Pieces | msca-derive/src/data.rs:149-191 | what a data segment sees of the accumulator: per field the column of its items, all with the same count |
| Dataset.Dataset.Schema | msca-core/src/schema.rs:181-198 | registering the layout committed under a name returns that schema and touches nothing; another layout is a collision and touches nothing; a new name succeeds if and only if its segment can be committed |
| Dataset.Dataset.Write | msca-core/src/dataset.rs:147-160 | empty accumulators are ignored; otherwise it succeeds if and only if the segment can be committed, maps the grown region and returns the number of rows or bytes; a failure commits nothing |
| Dataset.Dataset.Binary | msca-core/src/dataset.rs:284-291 | returns the payload committed under a name, or that there is none |
| EndToEnd.CommittedColumnReads | msca-core/src/query/mod.rs:994-1021 | over any region a manifest describes, every recorded buffer reads back as the rows pushed for that commit, if and only if they are decodable |
| EndToEnd.CommittedColumnHolds | msca-core/src/query/mod.rs:994-1021 | reading a described column yields the concatenation of all rows pushed into it, in commit order |
| EndToEnd.RecordedIsPushed | msca-core/src/manifest.rs:213-221 | the recorded item count of a schema is the number of rows pushed |
| EndToEnd.ColumnsInLockstep | msca-core/src/accumulate.rs:895-911 | columns of a schema have one buffer per batch, counting its rows, with strictly increasing aligned sectors |
| EndToEnd.CompositeOver | msca-derive/src/read.rs:122-148 | composite reading of described columns accepts exactly the pushed rows that satisfy the tree, if and only if none lies in a cleared buffer or is lost |
| EndToEnd.RowsReadBack | msca-derive/src/read.rs:233-266 | the unfiltered conjunction of all columns yields the pushed rows in commit order |
| Runs.RunAccounts | msca-core/src/dataset.rs:147-160 | after any run of schemas, batches and binaries the file is sound and its segments hold exactly the nonempty batches of every schema, in order |
| Runs.RunInLockstep | msca-core/src/accumulate.rs:895-911 | after any run, the columns of a schema have one buffer per nonempty batch, counting its rows, with strictly increasing aligned sectors |
| Runs.QueryOverRun | msca-core/src/query/mod.rs:714-732 | after any run, a query never fails and yields, from the values pushed in commit order, those in its window that pass its filters and lie in spared buffers; all of them if and only if every buffer with one is spared |
| Runs.ValuesHeld | msca-core/src/query/mod.rs:994-1021 | after any run, reading a column without filters yields the values pushed into it, in commit order, and its recorded count is their number |
| Runs.CompositeOverRun | msca-derive/src/read.rs:122-148 | after any run, composite reading never fails and accepts, in order, the pushed rows that satisfy the Boolean tree, if and only if none lies in a cleared buffer and none is lost to an absent item |
| Runs.RunReadsBack | msca-derive/src/read.rs:233-266 | after any run, reading whole rows yields the pushed rows in commit order |
| Example.SevenIsReadBack | msca-core/src/io.rs:644-662 | a run of one schema and one batch exists, its rows are readable, a filtered leg fits its column, and its row is read back, as a whole, as a column, and by looking for its value |
| Intern.InternRows | msca-core/src/query/mod.rs:120-134 | every committed item is interned to its earliest position; it fails if and only if a position exceeds the greatest index or an item fails to be read, whichever comes first |
| Intern.Assign | msca-core/src/dataset.rs:212-220 | known items get their index, unseen ones the next free index in request order |
| Intern.Unseen | msca-core/src/dataset.rs:221-222 | the map's entries beyond the committed count, gathered in any order and sorted by index, are the unseen items in request order |
| Intern.Request | msca-core/src/dataset.rs:206-222 | one request: every item gets its first position among committed and unseen items, and the unseen ones come in first-request order; it fails if and only if an item fails to be read or the indices do not suffice |
| Dictionary.RowsAreRead | msca-core/src/dataset.rs:207-209 | iterating over the rows of a schema yields the rows of its batches without error, and the recorded count is their number |
| Damage.ErrorInPlace | msca-core/src/dataset.rs:207-209 | iterating over rows yields the error of a broken row in its place |
| Dictionary.Dictionary.GetOrInsert | msca-core/src/dataset.rs:199-225 | on a dataset: it succeeds if and only if the schema is there or can be registered, the indices suffice and the batch of distinct unseen rows can be committed; then these rows are added and row `out[k]` of the file equals `items[k]`; the dictionary stays valid if the batch can be read back; if it fails no data is written, and nothing at all for a known schema whose indices do not suffice |
| Dictionary.IndexIsPosition | msca-core/src/dataset.rs:162-198 | an index is the position of its row among the rows read back from the file |
| Intern.IndicesAreStable | msca-core/src/dataset.rs:162-198 | indices stay valid and first over any sequence of calls |
| Intern.NoItemTwice | msca-core/src/dataset.rs:162-198 | equal items share one index over any sequence of calls |
| Intern.AskingAgainIsFree | msca-core/src/dataset.rs:199-225 | requesting the same items again commits nothing |

## Left out

- Meaning.TwoPhaseExact: covers filters above at most one skip and one take; a window above a filter counts positions in the buffers left, to which the code gives no naive meaning.
- Joins.TreeRetains: covers trees over chains without windows, for the same reason.
- Runs.RunAccounts: runs are made of commits that succeed; what a failed commit leaves in the file is stated at `File.Handle.Append`, but the manifest held in memory may then differ from the one on disk.
- Dictionary.Dictionary.GetOrInsert: asks that the rows committed before can be read back, which only nested sequences without elements cannot; after a batch that cannot, the next request fails as its reading does.
- Window.SkipTakeMarks: covers one skip per chain; a second skip ignores the first one's remainder in the code.
- Accumulators nested inside a column, and the cursors that read them, are values with functions instead of objects updated in place; the column state machine, the item stream, the mask, the segment buffer and the file are updated in place.
- Strings: a string column is a byte sequence here, without UTF-8 validation; damaged ends of optional strings fail in the code and read as empty rows here.
- `Option<Option<_>>` columns: no reader exists.
- `next_multiple_of` beyond the greatest integer is an error here, where the code panics.
- Item counts beyond 64 bits do not overflow here.
- Ranges over item types that are not numbers have no statistics and are left out.
- `Outcome` is not part of the sources; its four cases and their handling are those of the generated reader, and the item phase of a take counts its quota under the final mask, with the kept part of the last buffer only while that buffer is set.
- The operators of joined rows are not part of the sources; they are taken to be intersection, union and symmetric difference, as the join nodes are documented.
- Asynchronous file handles, flushing, memory mapping and operating system errors: the file is a byte sequence and each write an update of it.
- CBOR and XXH3: parameters of the model.
- Recovery of a damaged manifest, metadata, logging, error conversion, macro parsing.
- The join of two schemas by key, other than the semi and anti join filters on given key sets.
