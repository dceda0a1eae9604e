# Query-log cleaner, addTwoNumbers and twoSum in Dafny

This project models three pieces of a small Python repository and proves what
they promise.

1. **The query-log cleaner** (`interview/clean_query.py`). It sorts and
   de-duplicates a large `key value` log in four stages:
   - `build_splitted_key_index_lists` indexes every line by its key, stable-sorts the index and cuts it into chunks of `split_step` entries;
   - `split_file` writes each chunk's source lines to a partition file;
   - `sort_sub_files` parses each partition into `(key, value)` pairs, sorts them in tuple order and writes them back;
   - `merge_sub_files` reads the sorted files in order and drops every line equal to the last line written.

   A file is a `seq<string>` of lines without their newlines. Keys and values
   are compared as Python compares `str` values, code point by code point.
2. **`Solution.addTwoNumbers`** (`leet_code/2.py`). It adds two numbers held as
   little-endian digit lists, with a carry. The list helpers `array2linked_list`
   and `linked_list2array` are modelled too. A `ListNode` chain is the value
   datatype `List`.
3. **`Solution.twoSum`** (`leet_code/1.py`). It makes one pass with a dictionary
   from every value seen to the last position it was seen at.

Modules:
- `Base`: `Option`, `Result`, `Max`, `Min`.
- `Seqs`: flattening, mapping and the adjacent-duplicate filter `Dedup`.
- `Text`: Python string order, `split(' ')`, `join`, `strip`.
- `KeyIndex`: stage 2.
- `SplitFile`: stage 3.
- `SortSubFiles`: stage 4.
- `MergeSubFiles`: stage 5.
- `CleanQuery`: the chained stages and the corrected cleaner.
- `Findings`: two concrete discrepancies.
- `AddTwoNumbers`.
- `TwoSum`.

The header comment of `interview/clean_query.py` (lines 1-14) describes the
key as an unsigned 64-bit timestamp (line 7). The code never parses it: both
sorts compare keys as `str` (so `"10" < "9"`), and the model follows the code.

What the code does in the corner cases:
- **Empty log.** With a positive step it trips the `split_step <= len(...)` assertion. With a zero step it divides by zero. With a negative step it writes an empty output file.
- **Malformed lines** (no space, non-numeric key) are not rejected. They are parsed like any other line.
- **A key whose run of lines straddles a chunk boundary is not handled.** The merge removes only adjacent repeats, so such a key can leave repeated lines and values out of order in the output (see Findings).

## Model

| member | source | states |
|---|---|---|
| Text.StrLeIsLexLe | interview/clean_query.py:99 | the recursive model of Python's `str <=` holds exactly when one string is a prefix of the other or the first differing code point is smaller |
| Text.StrLeTotal | interview/clean_query.py:147 | any two strings are comparable, so the sorts have a total order to work with |
| Text.StrLeAntisymmetric | interview/clean_query.py:147 | strings each `<=` the other are equal |
| Text.StrLeTransitive | interview/clean_query.py:147 | string `<=` is transitive |
| Text.SplitSpace | interview/clean_query.py:145 | `split(' ')` yields at least one field, no field holds a space, and joining the fields with single spaces gives the line back |
| Text.SplitJoinSpace | interview/clean_query.py:145 | splitting a space-join of space-free fields gives those fields back |
| Text.KeyOf | interview/clean_query.py:96 | the key is a space-free prefix of the line that ends at the line's end or at its first space |
| Text.Strip | interview/clean_query.py:145 | `strip()` returns the slice between the leading and trailing whitespace, has whitespace at neither end, and leaves an already stripped string alone |
| KeyIndex.ExtractKeyIndex | interview/clean_query.py:95-96 | one entry per line; entry `i` pairs line `i`'s key with the number `i + 1` |
| KeyIndex.ExtractKeyIndexNumbering | interview/clean_query.py:95-96 | the numbers handed out are exactly 1..N: every entry refers back to its own line, every line has its entry, and numbers increase along the index |
| KeyIndex.SortByKey | interview/clean_query.py:99 | the sorted index is a permutation of the index with keys non-decreasing; when line numbers increase in the input, entries of equal key keep their line order (a stable sort) |
| KeyIndex.InsertByKeySorted | interview/clean_query.py:99 | inserting one entry into a key-sorted index keeps it key-sorted |
| KeyIndex.InsertByKeyStable | interview/clean_query.py:99 | inserting an entry with a larger line number keeps entries of equal key in line order |
| KeyIndex.SplitByStep | interview/clean_query.py:103-107 | fails with the assertion exactly when `step > N`, divides by zero exactly when `step == 0`, yields no chunk for a negative step, and otherwise yields the chunks of `step` entries |
| KeyIndex.Chunks | interview/clean_query.py:106-107 | every chunk holds 1..step entries, and every chunk but the last holds exactly `step` |
| KeyIndex.ChunksFlatten | interview/clean_query.py:106-107 | the chunks read back to back give the sorted index again |
| KeyIndex.ChunksCount | interview/clean_query.py:106 | there are `ceil(N / step)` chunks |
| KeyIndex.ChunksAreSlices | interview/clean_query.py:107 | chunk `i` is the Python slice `[i * step : (i + 1) * step]` of the sorted index |
| KeyIndex.SplitByStepShape | interview/clean_query.py:103-107 | for `1 <= step <= N`: the chunks rebuild the index; there are `ceil(N / step)` of them; all hold `step` entries except the last, which holds 1..step; no key of a chunk is greater than a key of a later chunk |
| KeyIndex.BuildSplittedKeyIndexListsSorted | interview/clean_query.py:89-109 | for a usable step the chunks together are a permutation of the extracted index, sorted by key, with equal keys in line order |
| KeyIndex.ChunksByRunsFlatten | interview/clean_query.py:102-107 | the corrected chunking also rebuilds the sorted index |
| KeyIndex.ChunksByRunsSeparateKeys | interview/clean_query.py:102-107 | cutting only between key runs leaves every key of a chunk strictly below every key of a later chunk |
| KeyIndex.SplitByRuns | interview/clean_query.py:103-107 | the corrected split rejects a zero, negative or too large step (each with its own error) and otherwise rebuilds the sorted index |
| KeyIndex.BuildSplittedFixedSeparated | interview/clean_query.py:89-109 | the corrected stage 2 keeps every entry and splits no key between chunks |
| SplitFile.WritePartition | interview/clean_query.py:124-125 | a partition file holds, in chunk order, the source lines the chunk's entries number |
| SplitFile.SplitFile | interview/clean_query.py:120-129 | one partition file per chunk, same numbering; file `i` holds chunk `i`'s lines in chunk order |
| SplitFile.WriteExtractedIndex | interview/clean_query.py:124-125 | fetching the lines of the extracted index in file order gives the source file back |
| SplitFile.SplitFileKeepsLines | interview/clean_query.py:121-125 | for any permutation of the index cut into chunks, the partition files together hold every source line exactly as often as the source does |
| SortSubFiles.ParseLine | interview/clean_query.py:145 | the parsed key is the line's key, and the value has no space inside and no whitespace at either end |
| SortSubFiles.ParseLineValue | interview/clean_query.py:145 | the value is the part of the line after its key, with every space deleted and the whitespace at both ends cut |
| SortSubFiles.ParseLineJoinsFields | interview/clean_query.py:145 | `5 a b` parses to `("5", "ab")`: the fields after the key are glued together |
| Text.ConcatSplitSpace | interview/clean_query.py:145 | joining the `split(' ')` fields with no separator deletes the spaces of the string |
| SortSubFiles.ParseRender | interview/clean_query.py:145-152 | writing a normal-form pair as `key value` and parsing the line gives the pair back |
| SortSubFiles.RenderInjective | interview/clean_query.py:152 | distinct pairs with space-free keys are written as distinct lines |
| SortSubFiles.RecordLeTotal | interview/clean_query.py:147 | any two `(key, value)` tuples are comparable |
| SortSubFiles.RecordLeAntisymmetric | interview/clean_query.py:147 | tuples each `<=` the other are equal |
| SortSubFiles.RecordLeTransitive | interview/clean_query.py:147 | tuple `<=` is transitive |
| SortSubFiles.SortRecords | interview/clean_query.py:147 | `sorted` returns a permutation of the pairs in tuple order |
| SortSubFiles.SortRecordsKeepsSorted | interview/clean_query.py:147 | sorting pairs already in tuple order leaves them in place |
| SortSubFiles.SortSubFile | interview/clean_query.py:141-152 | the sorted file has as many lines as its input (nothing removed); read back, it gives a permutation of the input's pairs in tuple order; and each of its lines is in `key value` normal form |
| SortSubFiles.SortSubFileKeepsSorted | interview/clean_query.py:141-152 | a file already in normal form and tuple order is written back unchanged |
| SortSubFiles.SortSubFileIdempotent | interview/clean_query.py:141-152 | sorting a sorted file again changes nothing |
| SortSubFiles.SortSubFiles | interview/clean_query.py:135-156 | one sorted file per partition file, same numbering; sorted file `i` has as many lines as partition file `i`, reads back as a permutation of its pairs in tuple order, and holds only `key value` lines of normal-form pairs |
| Seqs.Dedup | interview/clean_query.py:162-169 | the filter keeps the last line, never leaves two equal lines next to each other, and is empty only for empty input |
| Seqs.DedupMember | interview/clean_query.py:167-169 | a line survives the filter exactly when it occurs in the input |
| Seqs.DedupIdempotent | interview/clean_query.py:167-169 | filtering twice is filtering once |
| MergeSubFiles.MergeSubFiles | interview/clean_query.py:160-171 | the merge loop, with `last_line` carried across files, writes the concatenation of the files with every line equal to its predecessor dropped |
| MergeSubFiles.MergeStep | interview/clean_query.py:167-169 | one inner iteration writes the line exactly when it differs from the last line written |
| MergeSubFiles.MergeKeepsLines | interview/clean_query.py:162-169 | a line is in the merged file exactly when some input file holds it |
| MergeSubFiles.MergeIdempotent | interview/clean_query.py:162-169 | merging the merged file again changes nothing |
| MergeSubFiles.MergeSortedIsStrict | interview/clean_query.py:162-169 | if the files read back to back are in string order, the merged file is strictly ascending |
| CleanQuery.Clean | interview/clean_query.py:173-178 | the chained stages fail with the assertion exactly when `step > N` (an empty log included), divide by zero exactly when `step == 0`, fail for no other step, and write an empty file for a negative step |
| CleanQuery.BuildSplittedIsOrderedPartition | interview/clean_query.py:99-107 | stage 2 hands on a permutation of the index whose chunks are ordered by key |
| CleanQuery.SortSubFileNormalizes | interview/clean_query.py:144-152 | a sorted partition file holds the normal forms of its input lines, with multiplicity |
| CleanQuery.SortedFilesHoldNormalizedLines | interview/clean_query.py:121-152 | the sorted partition files together hold the normal form of every source line, as often as the source holds it |
| CleanQuery.PipelineKeysSorted | interview/clean_query.py:121-169 | for every ordered partition, the keys of the merged output never decrease |
| CleanQuery.PipelineStrict | interview/clean_query.py:141-169 | for an ordered partition that splits no key, the output read back as pairs is strictly ascending in tuple order and no line occurs twice |
| CleanQuery.PipelineMember | interview/clean_query.py:121-169 | a line is in the output exactly when it is the normal form of a source line |
| CleanQuery.PipelineIndependentOfPartition | interview/clean_query.py:121-169 | two ordered partitions of the same log that split no key give the same output |
| CleanQuery.CleanOutput | interview/clean_query.py:173-178 | for `1 <= step <= N`: keys never decrease, no line repeats its predecessor, and the output holds the normal form of every source line and nothing else |
| CleanQuery.CleanStrictWhenNoKeySplit | interview/clean_query.py:11-14 | when no key is split between chunks, the output is strictly ascending in `(key, value)` order and holds every pair once |
| CleanQuery.CleanStepIndependentWhenNoKeySplit | interview/clean_query.py:173-178 | two steps that both keep every key in one chunk give the same file |
| CleanQuery.CleanFixed | interview/clean_query.py:103-107 | the corrected cleaner succeeds exactly for `1 <= step <= N` and reports a negative, zero or too large step by its own error |
| CleanQuery.CleanFixedOutput | interview/clean_query.py:11-14 | for every usable step, the corrected cleaner's output is ordered by key, strictly ascending in tuple order, free of repeats, and holds the normal form of every source line and nothing else |
| CleanQuery.CleanFixedStepIndependent | interview/clean_query.py:102-107 | with the corrected split, every usable step gives the same file |
| CleanQuery.CleanFixedAgreesWhenNoKeySplit | interview/clean_query.py:102-107 | where the script's split keeps every key in one chunk, the corrected cleaner writes the script's file |
| CleanQuery.NegativeStepEmptiesOutput | interview/clean_query.py:103-106 | a negative step passes the assertion and yields an empty file that misses every source line; the corrected cleaner rejects the step |
| Findings.StraddledKeyRepeatsLine | interview/clean_query.py:106-107 | on the log `5 a`, `5 b`, `5 a` with step 2 the script writes `5 a`, `5 b`, `5 a`: a repeated line, out of tuple order |
| Findings.StraddledKeyFixed | interview/clean_query.py:102-107 | on the same log and step the corrected cleaner writes each line once in tuple order |
| AddTwoNumbers.CarryOf | leet_code/2.py:25-30 | the carry is 0 or 1, and digit plus ten times carry is the column sum |
| AddTwoNumbers.FillValue | leet_code/2.py:15-37 | the digits the loop writes from a given state stand for the sum of the remaining inputs plus the carry |
| AddTwoNumbers.AddTwoNumbersValue | leet_code/2.py:9-39 | the result stands for `value(l1) + value(l2)` |
| AddTwoNumbers.FillDigits | leet_code/2.py:15-37 | with digit inputs and a carry of 0 or 1, every digit written is in 0..9 |
| AddTwoNumbers.AddTwoNumbersDigits | leet_code/2.py:9-39 | digit inputs give a digit result |
| AddTwoNumbers.FillLength | leet_code/2.py:15-37 | from a given state the loop writes as many digits as the longer remaining input, one more when the total needs another column, and at least one |
| AddTwoNumbers.AddTwoNumbersLength | leet_code/2.py:9-39 | the result has `max(len l1, len l2)` digits, one more if a final carry remains, and at least one (two empty inputs give `[0]`) |
| AddTwoNumbers.ToArray | leet_code/2.py:57-62 | the array has one element per node |
| AddTwoNumbers.FromArray | leet_code/2.py:44-52 | the list always has a head node, and one node per element (one for the empty array) |
| AddTwoNumbers.ArrayRoundTrip | leet_code/2.py:44-62 | converting an array to a list and back gives the array, and `[0]` for the empty array |
| AddTwoNumbers.ListRoundTrip | leet_code/2.py:44-62 | converting a non-empty list to an array and back gives the list |
| AddTwoNumbers.Demo | leet_code/2.py:41-65 | `[2, 4, 3] + [5, 6, 4]` gives `[7, 0, 8]` |
| TwoSum.TwoSum | leet_code/1.py:4-12 | a returned `(i, j)` has `j < i`, adds up to the target, `i` is the first position with a partner before it and `j` the last such partner; `None` exactly when no two positions add up to the target |
| TwoSum.Demo | leet_code/1.py:15-16 | `[2, 7, 11, 15]` with target 9 gives `(1, 0)` |

## Left out

- File I/O is not modelled: `open`, `readlines`, `write`, `os.makedirs` and the `{index}.log` path names. A file is the sequence of its lines, and every source line is taken to end in a newline.
- `linecache` caching is not modelled. `getline` is 1-based indexing of the line sequence, and an out-of-range number writes nothing.
- Lines without a space are modelled as plain strings. In Python such a line keeps its newline inside the key and is written back as a broken record. This is an artefact of the newline handling.
- `generate_mock_query_log` is left out: it uses randomness, the clock and file writing.
- The `execution_time` decorator and the statistics prints of the main block are left out: wall-clock timing and printing.
- Comments with no code behind them are not modelled: the memory-budget estimate, the HyperLogLog idea and the unimplemented automatic split.
- `ListNode` identity, aliasing and in-place mutation are not modelled. Lists are immutable values, so the inputs are never modified.
- The module-level `print` calls of `leet_code/1.py` and `leet_code/2.py` are left out. Their computations are the `Demo` members.
- The dictionary of `twoSum` is a Dafny `map` from value to position; hashing and object identity play no part.

## Findings

| source | as written | input that shows it | evidently intended | confidence | as-written member | corrected member |
|---|---|---|---|---|---|---|
| interview/clean_query.py:106-107 | chunks are cut purely by count, so a key's run of lines can straddle two chunks, and each chunk is sorted and de-duplicated only against its neighbour line | log `5 a`, `5 b`, `5 a` with `split_step` 2: the output is `5 a`, `5 b`, `5 a` | each `(key, value)` pair once, in tuple order; the corrected split moves each cut to the end of the key run it falls in, so a chunk may exceed `split_step` and a long run of one key gives one large chunk, giving up the memory bound the step exists for | not executed | Findings.StraddledKeyRepeatsLine | Findings.StraddledKeyFixed |
| interview/clean_query.py:103-106 | the assertion only bounds the step from above; a negative step passes it, and `range(ceil(N / step))` is empty | any non-empty log with `split_step` -1: the cleaned file is empty | reject the step like a zero step, instead of silently dropping every line | not executed | CleanQuery.NegativeStepEmptiesOutput | CleanQuery.CleanFixed |
