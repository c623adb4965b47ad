# Code-structure detection for JavaScript-like sources

`GetElements(lines, blocks, singles, ignore)` scans a source file line by line. It
returns a list of records `[type, start, end, name]`, one for every block (a
function, a class, anything whose body is delimited by an opening and a closing
string) and for every run of consecutive single-line elements (comments, imports,
and so on) that it recognises. Two configuration dictionaries describe the types:

- a block type has a search pattern, its delimiters, whether it takes an argument
  list in parentheses, whether it may nest inside itself, and two containment
  constraints;
- a single-line type has an element string, a comparison mode and a position that
  says when it is tried.

Every line is first normalised (`GetNormalizedLine`): quoted segments are removed,
runs of whitespace become one space and the ends are stripped. The scanner then
does three things per line:

1. It classifies the line on the state as it was before the line (`DefineType`):
   `up` singles first, then block types in declared order, then `down` singles,
   then the first `default` single.
2. It advances every open block. A delimiter counter walks the line (`IsEndUp`).
   A block that closes gets its record's `end` set to the line (`UpdateLastIndex`).
   When the oldest instance of a type closes, that type's counter list is
   compacted (`Del`).
3. When the line was classified, and the last handled block type is recursive or
   no longer open, it handles the classified type (`HandleType`) and then resets
   the streaks of the other single-line types (`Reinit`). A line that is not
   classified, or not admitted, changes no streak: a running streak survives it.

The model has two layers:

- Value functions in `Steps` describe one line's effect on the scanner state.
- Class `Detection.Scanner` performs the same steps in place on its fields.

Each method is proved to leave exactly the state the matching function describes.
The properties are proved about those functions. The two main results:

- **The scan invariant** (`Steps.Inv`): a block record always carries a name and a
  single record never does, a running streak owns the last record, and no type has
  more open instances than records.
- **The record shape** (`Steps.RecordsBefore`): every record lies within the file,
  starts no later than it ends, and at most one record starts per line.

The invariant shows that the "no start found" exception of `UpdateLastIndex` can
never be raised. It also shows that `elements[-1]` is always a record of the
streak's type when a single-line streak continues.

Where the documented behaviour and the code differ, the model follows the code:

- The position `IsEndUp` returns when a block closes is the index of the closing
  delimiter's last character plus `size_max - 1`, not the index just past the
  delimiter.
- Block records always get a name, possibly empty. The classifier only picks a
  block type whose pattern matched the same normalised line that `GetName`
  searches.
- The `in` comparison mode tests whether the line occurs inside the configured
  element, not the other way round.
- `Del` keeps every entry from the last positive counter on. Two consequences:
  open counters before that one are dropped, and when no counter is positive only
  the first entry is removed.

## Model

| member | source | states |
|---|---|---|
| Balance.MatchAtIsSlice | jsCodeStructureDetection.py:187-190 | matching a delimiter at a position is equal to comparing the line's slice there with the delimiter |
| Balance.IsEndUp | jsCodeStructureDetection.py:164-204 | the counter loop returns exactly the walk `EndUp`: closed with the reported position, or still open with the final depth and index |
| Balance.QuietOfAbsent | jsCodeStructureDetection.py:185-190 | a delimiter that does not occur in the line never matches at any position of the walk |
| Balance.ScanQuiet | jsCodeStructureDetection.py:185-204 | with neither delimiter present from a position on, the walk ends open with the depth unchanged |
| Balance.NoDelimiterKeepsCount | jsCodeStructureDetection.py:177-204 | a line without either delimiter leaves the depth as it was and does not close the block |
| Balance.ScanNoRemove | jsCodeStructureDetection.py:185-204 | with no closing delimiter from a position on, the walk stays open and its depth is the starting depth plus the number of opening delimiters it meets (`Openers`, counted with the same jumps as the walk) |
| Balance.NoCloseStaysOpen | jsCodeStructureDetection.py:194-201 | a line without the closing delimiter cannot close a block, and its depth grows by exactly the number of opening delimiters on the line |
| Balance.ScanFromZeroNoAdd | jsCodeStructureDetection.py:194 | from depth zero, with no opening delimiter ahead, closers are ignored and the depth stays zero |
| Balance.ZeroWithoutOpenStaysZero | jsCodeStructureDetection.py:344-348 | a block body without its opening delimiter is reported open at depth zero, not closed |
| Balance.ScanClosedAt | jsCodeStructureDetection.py:194-201 | a walk that closes does so on an occurrence of the closing delimiter, and the reported position is derived from that occurrence |
| Balance.ScanCountsClosers | jsCodeStructureDetection.py:185-203 | with no opening delimiter ahead, a walk from depth n >= 1 closes exactly when it meets n closing delimiters, at the n-th; otherwise it ends open at n less the closers met |
| Balance.EndUpCountsClosers | jsCodeStructureDetection.py:177-204 | for a whole line without the opening delimiter, the block closes exactly at its n-th closing delimiter, or stays open with n less the closers counted |
| Balance.ClosedAtClosingDelimiter | jsCodeStructureDetection.py:194-201 | a line reported as closing a block contains the closing delimiter at the position the close is derived from |
| Compaction.LastPositive | jsCodeStructureDetection.py:102-106 | finds the last positive counter, and reports none only when every counter is zero |
| Compaction.Compacted | jsCodeStructureDetection.py:102-111 | the kept list is a suffix of the input; it starts at the last positive counter and everything after it is zero; a closed first entry always goes; with no positive counter only the first entry is removed |
| Compaction.Del | jsCodeStructureDetection.py:102-111 | the two deletion loops leave exactly the compacted list |
| Strings.Split | jsCodeStructureDetection.py:266 | splitting yields at least one piece and no piece contains the separator |
| Strings.JoinSplit | jsCodeStructureDetection.py:266 | joining the pieces with the separator gives back the original string |
| Strings.SplitFirst | jsCodeStructureDetection.py:266 | the first piece of a split is the text before the first separator |
| Config.FindBlock | jsCodeStructureDetection.py:225 | the search returns a position holding the tag, or none when no later entry has it |
| Config.BlockIndex | jsCodeStructureDetection.py:333 | `blocks[type_]` for a declared block tag finds a table entry with that tag |
| Config.BlockIndexUnique | jsCodeStructureDetection.py:34 | with distinct keys, looking up an entry's tag finds that same entry |
| Records.NthLastBefore | jsCodeStructureDetection.py:287-294 | the backward search only ever returns a record of the requested tag |
| Records.NthLast | jsCodeStructureDetection.py:271-300 | the record `UpdateLastIndex` targets is of the requested tag |
| Records.CountTagAppend | jsCodeStructureDetection.py:287-294 | the number of records of a tag adds up over a concatenation |
| Records.CountTagFrom | jsCodeStructureDetection.py:287-294 | counting from position j is the record at j plus the count from j+1 |
| Records.NthLastBeforeFound | jsCodeStructureDetection.py:284-298 | the search below j succeeds exactly when more than `num` records of the tag lie below j |
| Records.NthLastFound | jsCodeStructureDetection.py:284-298 | `UpdateLastIndex` finds its target exactly when more than `num` records of the tag exist, so the exception fires only otherwise |
| Records.NthLastBeforeAt | jsCodeStructureDetection.py:287-292 | exactly `num` records of the tag lie between the found record and j |
| Records.NthLastAt | jsCodeStructureDetection.py:287-292 | the updated record is of the tag and exactly `num` later records share its tag |
| Records.CountTagEndsAdvanced | jsCodeStructureDetection.py:290 | moving record ends never changes how many records of a tag there are |
| Classify.VerifyType | jsCodeStructureDetection.py:245-269 | the check raises exactly for an unknown mode, and the error names that mode |
| Classify.NoModeIsNotNamed | jsCodeStructureDetection.py:265-267 | a `no ` mode passes exactly when none of its banned pieces occurs in the line, whatever the element |
| Classify.NoModeSkipsThreePieces | jsCodeStructureDetection.py:266-267 | in a `no ` mode, the first three comma-separated pieces are never tested |
| Classify.BannedSkipsThree | jsCodeStructureDetection.py:266-267 | the banned list of a `no ` mode is the split of what follows its third comma |
| Classify.SplitSkipsThree | jsCodeStructureDetection.py:266 | splitting past three comma-free pieces yields those pieces followed by the split of the rest |
| Classify.FirstSingleIsFirst | jsCodeStructureDetection.py:220-222 | the phase finds nothing exactly when every single of that position is rejected; a found tag is the first that passes; an error comes from an unknown mode |
| Classify.FirstDefault | jsCodeStructureDetection.py:239-241 | the answer is a `default` single, and there is none exactly when no single is `default` |
| Classify.FirstBlockIsFirst | jsCodeStructureDetection.py:225-231 | the block phase finds nothing exactly when no block type is eligible; a found tag is the first eligible one |
| Classify.DefineType | jsCodeStructureDetection.py:206-243 | a type found is a single tag or an eligible block tag; an error comes from an unknown mode of some single |
| Classify.UpSingleFirst | jsCodeStructureDetection.py:219-222 | the first passing `up` single wins over every block and every later single |
| Classify.BlockSecond | jsCodeStructureDetection.py:224-231 | when no `up` single passes, the first eligible block type wins |
| Classify.DownSingleThird | jsCodeStructureDetection.py:233-236 | with no `up` single and no eligible block, the first passing `down` single wins |
| Classify.DefaultLast | jsCodeStructureDetection.py:238-243 | when every earlier phase fails, the answer is the first `default` single, or nothing |
| Classify.UnknownWayRaises | jsCodeStructureDetection.py:221 | an `up` single with an unknown mode, reached before any match, raises with that mode |
| Classify.FirstSingleAt | jsCodeStructureDetection.py:220-222 | the single phase stops at the first entry of that position that passes or raises |
| Classify.FirstSingleFrom | jsCodeStructureDetection.py:220-222 | rejected entries can be skipped without changing the phase's answer |
| Classify.FirstSingleSkip | jsCodeStructureDetection.py:221 | one rejected entry, or one of another position, does not change the answer |
| Classify.FirstBlockAt | jsCodeStructureDetection.py:225-231 | the block phase stops at the first eligible block type |
| Classify.FirstBlockFrom | jsCodeStructureDetection.py:225-231 | ineligible block types can be skipped without changing the phase's answer |
| Classify.FirstBlockSkip | jsCodeStructureDetection.py:228-230 | one ineligible block type does not change the answer |
| Classify.ClassifiedBlockIsNamed | jsCodeStructureDetection.py:369-373 | a line classified as a block type gets a name (possibly empty), never `None` |
| Normalize.NextAt | jsCodeStructureDetection.py:419 | finds the next occurrence of the quote, with no occurrence skipped, or reports that none is left |
| Normalize.StripQuotes | jsCodeStructureDetection.py:419 | removing quoted segments never lengthens the line or introduces a character |
| Normalize.WordsFrom | jsCodeStructureDetection.py:421 | the words of `split()` are non-empty and contain no whitespace |
| Normalize.StripQuotesPlain | jsCodeStructureDetection.py:419 | a line without quotes is left unchanged |
| Normalize.StripQuotesPlainPrefix | jsCodeStructureDetection.py:419 | a quote-free prefix survives and the rest is processed on its own |
| Normalize.StripQuotesDropsSegment | jsCodeStructureDetection.py:419 | a complete quoted segment is removed, quotes included |
| Normalize.StripQuotesKeepsUnmatched | jsCodeStructureDetection.py:419 | a quote with no partner is kept |
| Normalize.NextAtSkips | jsCodeStructureDetection.py:419 | the quote search lands on the first occurrence after the start |
| Normalize.StripQuotesLeavesNoPair | jsCodeStructureDetection.py:419 | a quote left after removal has no equal quote after it, so no complete quoted segment survives |
| Normalize.NonSpaceAppend | jsCodeStructureDetection.py:421 | dropping whitespace distributes over concatenation |
| Normalize.NonSpaceOfWord | jsCodeStructureDetection.py:421 | a word is unchanged when whitespace is dropped |
| Normalize.WordsKeepText | jsCodeStructureDetection.py:421 | splitting into words and joining with spaces loses no non-space character |
| Normalize.JoinCollapsed | jsCodeStructureDetection.py:421 | words joined by single spaces have no leading, trailing or doubled whitespace |
| Normalize.StripKeepsTrimmed | jsCodeStructureDetection.py:421 | stripping a string with no edge whitespace changes nothing |
| Normalize.WordsFromWord | jsCodeStructureDetection.py:421 | reading a whitespace-free piece only extends the word being built by `split()` |
| Normalize.WordsOfJoin | jsCodeStructureDetection.py:421 | `split()` of non-empty, whitespace-free words joined by single spaces gives back exactly those words |
| Normalize.NormalizedShape | jsCodeStructureDetection.py:409-423 | the normalised line has single inner spaces and no edge whitespace, keeps exactly the non-space text outside quotes, and splits into the same words as the unquoted line: every whitespace run became one space |
| Normalize.NormalizedPlainLine | jsCodeStructureDetection.py:409-423 | a line without quotes keeps all its non-space text |
| Steps.Drop | jsCodeStructureDetection.py:343 | `line[k:]` is the suffix of the line past k, and empty when k is past the end |
| Steps.InvKnowsConstraints | jsCodeStructureDetection.py:230 | every containment constraint names a tag with a counter list, so the classifier's lookups succeed |
| Steps.EndsAdvancedTrans | jsCodeStructureDetection.py:149-162 | two rounds of end updates on one line are again only end updates to that line |
| Steps.AdvanceKeepsFits | jsCodeStructureDetection.py:149-162 | moving ends and shrinking counter lists keeps every list no longer than its records |
| Steps.AdvanceKeepsInv | jsCodeStructureDetection.py:149-162 | advancing the open blocks keeps the scan invariant |
| Steps.Initial | jsCodeStructureDetection.py:47-55 | the starting state satisfies the scan invariant and holds no records |
| Steps.ClosedList | jsCodeStructureDetection.py:135-140 | closing a later instance zeroes only its counter; closing the oldest shrinks the list to a suffix of the zeroed list |
| Steps.AfterUpdateState | jsCodeStructureDetection.py:134-144 | updating one instance only touches that tag's list and record ends on this line; a non-oldest instance keeps the list length |
| Steps.CloseInstance | jsCodeStructureDetection.py:135-141 | closing an instance keeps the counter lists no longer than their records and moves ends only to this line |
| Steps.CloseInstanceIs | jsCodeStructureDetection.py:141 | the record to close always exists: it is the `(n-1-j)`-th most recent of its tag, and its end becomes this line |
| Steps.StoreDepth | jsCodeStructureDetection.py:142-143 | a still-open instance's counter becomes its new depth; the records, the list length and every other counter stay as they were |
| Steps.AfterInstance | jsCodeStructureDetection.py:152-160 | only the most recent instance of the argument-owning tag can change the argument slot |
| Steps.AfterInstances | jsCodeStructureDetection.py:151-160 | visiting a tag's instances newest first only touches that tag's list, which never grows |
| Steps.AfterBlocks | jsCodeStructureDetection.py:147-162 | advancing all open blocks never adds a record, only moves ends to this line, and never lengthens a list |
| Steps.HandleSingle | jsCodeStructureDetection.py:319-326 | a new streak appends a nameless record `i..i`; a running streak extends the last record to this line |
| Steps.StartKeepsShape | jsCodeStructureDetection.py:321-323 | starting a streak keeps the invariant's shape |
| Steps.ExtendKeepsShape | jsCodeStructureDetection.py:325-326 | extending the last record keeps the invariant's shape |
| Steps.OpeningList | jsCodeStructureDetection.py:342-352 | the tag's list is unchanged exactly when the arguments balance and the body closes on the same line; otherwise exactly one counter is appended: zero while the arguments are open, else the depth the body reaches |
| Steps.NoOpenerPushesZero | jsCodeStructureDetection.py:344-348 | a block whose body has no opening delimiter on its line registers an instance at depth zero |
| Steps.HandleBlock | jsCodeStructureDetection.py:329-354 | a block line appends one named record `i..i` and takes the argument slot; its list is unchanged exactly when the block balances on the line, and otherwise gains one counter (zero while arguments are open, else the body's depth) |
| Steps.OpenKeepsShape | jsCodeStructureDetection.py:347-354 | appending a block record and at most one counter keeps the invariant's shape |
| Steps.AppendKeepsNamed | jsCodeStructureDetection.py:354 | appending a correctly named record keeps every record correctly named |
| Steps.AfterHandleType | jsCodeStructureDetection.py:302-356 | handling a declared type leaves a record of that type last, starts or continues its streak, and keeps the shape |
| Steps.Reset | jsCodeStructureDetection.py:377-392 | resetting keeps the same single-line tags |
| Steps.ResetAll | jsCodeStructureDetection.py:388-390 | a table that zeroes every other single and changes nothing else is the reset table |
| Steps.ClassifiedFacts | jsCodeStructureDetection.py:206-243 | a classified type is declared, and a block type's pattern matched the line; an error can only come from the configuration |
| Steps.LineEffectAfterAdvance | jsCodeStructureDetection.py:62-67 | advancing, then handling, is still one line's effect on the records |
| Steps.Handled | jsCodeStructureDetection.py:67-72 | a handled line keeps the invariant, leaves a record of its type last, zeroes the other streaks, and records a block type as the last handled |
| Steps.HandledKeepsInv | jsCodeStructureDetection.py:67-72 | resetting the other streaks after a handled line keeps the invariant |
| Steps.AfterLine | jsCodeStructureDetection.py:57-74 | one line keeps the invariant and moves ends only to this line and adds at most one record; it fails only for a configured unknown mode |
| Steps.AfterClassified | jsCodeStructureDetection.py:62-72 | the rest of the line keeps the invariant and has only one line's effect |
| Steps.HandledIfAdmitted | jsCodeStructureDetection.py:65-72 | handling or suppressing the line keeps the invariant and one line's effect |
| Steps.SuppressedLineAddsNothing | jsCodeStructureDetection.py:65 | a suppressed or unclassified line adds no record and leaves the streaks and the last block type alone |
| Steps.AdmittedLineIsHandled | jsCodeStructureDetection.py:65-72 | an admitted line ends with a record of its type, zeroes the other streaks, and a block type becomes the last handled |
| Steps.PrevBlockChangesOnlyOnBlock | jsCodeStructureDetection.py:70-72 | the last handled block type only ever changes to the type of a handled block line |
| Steps.LineEffectKeepsRanges | jsCodeStructureDetection.py:57-74 | after line i has had its effect, every record lies within lines 0..i and starts still strictly increase |
| Steps.Run | jsCodeStructureDetection.py:57-76 | the remaining lines keep the invariant and leave every record within the file; any failure comes from the configuration |
| Steps.RunStep | jsCodeStructureDetection.py:57-74 | one successful line keeps the invariant and the record ranges, and the rest of the scan continues from it |
| Steps.Detect | jsCodeStructureDetection.py:37-76 | the records lie within the file with increasing starts, block records are named, single records are not; failure only for an unknown configured mode |
| Detection.Scanner.constructor | jsCodeStructureDetection.py:33 | a scanner starts with the argument slot balanced and unowned |
| Detection.Scanner.UpdateLastIndex | jsCodeStructureDetection.py:271-300 | it reports found exactly when the target record exists; then it sets only that record's end, and otherwise changes nothing |
| Detection.Scanner.CloseAt | jsCodeStructureDetection.py:135-141 | closing an instance in place yields `CloseInstance` |
| Detection.Scanner.UpdateState | jsCodeStructureDetection.py:134-144 | the in-place update yields `AfterUpdateState` |
| Detection.Scanner.UpdateInstance | jsCodeStructureDetection.py:152-160 | the in-place step for one instance yields `AfterInstance` |
| Detection.Scanner.UpdateInstances | jsCodeStructureDetection.py:151-160 | the inner loop over a tag's instances, newest first, yields `AfterInstances` |
| Detection.Scanner.UpdateBlocks | jsCodeStructureDetection.py:147-162 | the loop over block types yields `AfterBlocks` on the normalised line |
| Detection.Scanner.StartOrExtend | jsCodeStructureDetection.py:319-326 | the single-line branch yields `HandleSingle` |
| Detection.Scanner.OpenBlock | jsCodeStructureDetection.py:329-354 | the block branch appends the named record, updates only its tag's list, and sets the argument slot |
| Detection.Scanner.HandleType | jsCodeStructureDetection.py:302-356 | handling a type in place yields `AfterHandleType` |
| Detection.Scanner.Reinit | jsCodeStructureDetection.py:377-392 | the loop zeroes every other single's streak and keeps the handled one |
| Detection.Scanner.HandleLine | jsCodeStructureDetection.py:67-72 | `HandleType`, `Reinit` and the last-block update together yield `Handled` |
| Detection.Scanner.FinishLine | jsCodeStructureDetection.py:68-72 | resets the other streaks and records a handled block type, touching nothing else |
| Detection.Scanner.ScanLine | jsCodeStructureDetection.py:62-72 | one classified line in place yields `AfterClassified` |
| Detection.Scanner.StepLine | jsCodeStructureDetection.py:57-74 | one line in place yields `AfterLine`, and the error it reports is the one raised |
| Detection.Scanner.Start | jsCodeStructureDetection.py:47-55 | the state set up before the loop is `Initial` |
| Detection.Scanner.ScanNext | jsCodeStructureDetection.py:57-74 | one loop iteration keeps the invariant and the record ranges, and leaves the outcome of the rest of the scan unchanged |
| Detection.Scanner.Scan | jsCodeStructureDetection.py:37-76 | the in-place scan returns exactly what `Detect` describes |
| Detection.GetElements | jsCodeStructureDetection.py:4-35 | the entry point returns exactly what `Detect` describes |

## Left out

- Regular expressions: a block type's `pattern` is a function from the normalised line to the match it finds, if any. The regex engine is not modelled.
- Whitespace is the fixed set of characters for which `str.isspace()` holds in Python 3, written out in `Normalize.IsSpace`; a later change of the Unicode database is not followed.
- Quote removal is modelled as a left-to-right scan that removes each complete `'…'` or `"…"` segment, which is how the regex `'[^']*'|"[^"]*"` behaves.
- The well-formed configuration (`Config.WellFormed`) is required and not modelled as an error. The block and single tables are dictionaries, so keys within each are distinct; the model also requires the two tables to share no key, which the original does not check (a shared key makes the single's counter overwrite the block's list). A containment constraint that names an undeclared tag or a single-line tag raises a lookup or type error in the original only when the containment test at jsCodeStructureDetection.py:230 is reached, that is when the pattern matched, no ignore string was present and no earlier constraint already failed; the model requires every constraint to name a block tag. With an empty opening delimiter the counter loop never ends.
- Balance.IsEndUp: requires a non-empty closing delimiter, which excludes a configuration the original accepts: with an empty closer and a positive depth, each pass stays at the same position and removes one level until the block closes there. Empty closers are not modelled.
- Exception messages are not modelled. The unknown-mode exception becomes `Error.UnknownWay(way)`. The "no start found" exception of `UpdateLastIndex` is proved unreachable, so it has no error value.
- `prev_type` is never read, so it is not modelled.
- `UpdateState`'s `update_type` argument is not modelled: every call passes the block's own type.
- `numpy` is used only to build an index range, and that range is written out.
- Dictionary iteration order is modelled by the order of the configuration sequences.
- `DisplayElements` only prints, so it is not modelled.
- `Main`'s loop body is split into several methods of the scanner class so that each proof stays small. The class keeps the in-place state.
- Classify.FirstSingle: its first-match contract is stated by `Classify.FirstSingleIsFirst` instead of its own `ensures`.
- Classify.FirstBlock: its first-match contract is stated by `Classify.FirstBlockIsFirst` instead of its own `ensures`.
- Steps.Reset: its own contract only keeps the key set; what it does to the counters is stated by `Detection.Scanner.Reinit` and `Steps.ResetAll`.
- Classify.GetName has no contract of its own; `Classify.ClassifiedBlockIsNamed` states what the scan relies on.
- Normalize.GetNormalizedLine has no contract of its own; `Normalize.NormalizedShape` and `Normalize.NormalizedPlainLine` state what it produces.
- Normalize.Words has no contract of its own; `Normalize.WordsOfJoin` and `Normalize.WordsKeepText` state how `split()` relates to joining, and `Normalize.WordsFrom` ensures every word is non-empty and whitespace-free.
- Normalize.Strip has no contract of its own; `Normalize.StripKeepsTrimmed` and `Normalize.NormalizedShape` state what stripping leaves.
- Strings.Join has no contract of its own; `Strings.JoinSplit` and `Normalize.JoinCollapsed` state what joining produces.
- Balance.ScanFrom and Balance.EndUp have no contract of their own; `Balance.IsEndUp` ties the counter loop to them, and `Balance.ScanCountsClosers`, `Balance.EndUpCountsClosers`, `Balance.ScanNoRemove`, `Balance.NoCloseStaysOpen` and the other Balance lemmas state what the walk computes.
- Balance.Openers has no contract of its own; it is the count used by `Balance.ScanNoRemove` and `Balance.NoCloseStaysOpen`.
- Steps.Admits has no contract of its own; `Steps.SuppressedLineAddsNothing` and `Steps.AdmittedLineIsHandled` state what admitting a line means for the state.
- Steps.OpeningArgs and Steps.BodyWalk have no contract of their own; `Steps.OpeningList` and `Steps.HandleBlock` state how they decide the new counter list.
- Classify.Banned has no contract of its own; `Classify.BannedSkipsThree` and `Classify.NoModeIsNotNamed` state what the banned list is and how a `no ` mode uses it.
- Compaction.Cut has no contract of its own; `Compaction.Compacted` states which part of the counter list is kept.
