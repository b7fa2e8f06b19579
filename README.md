# macroeco bookkeeping core in Dafny

This project models two pieces of the macroeco repository as Dafny and proves what they promise.

- The table-reshaping and header-cleaning helpers of `utils/form_func.py`:
  - `format_headers` and `format_dict_names`;
  - `broadcast` and `create_intcodes`;
  - `format_dense`;
  - `add_field` and `add_data_fields`;
  - `merge_formatted`.
- The run and output-identifier bookkeeping of `code/macroeco/workflow.py`:
  - `_clean_name` and the script name taken from `sys.argv[0]`;
  - `Workflow.__init__`;
  - `single_datasets` and `all_datasets`;
  - `Parameters.read_from_xml`, over an abstract element tree.

A numpy structured array is a `Tables.Table`. It holds field names, numpy type codes (`'|S20'`, `'<f8'`) and records, each record a list of cells in field order. `WellFormed` states what numpy guarantees of every such array:
- one type code per field;
- one cell per field in every record;
- no repeated field name.

Python exceptions are `Outcomes.Error` values inside a `Result`. The Python 2 dictionary iteration order, which the source leaves to the interpreter, is an explicit parameter `order` that lists every key once. The contents of `np.empty` are a caller-supplied `blank` cell.

The code follows its source's form:
- Loops that fill arrays, lists or dictionaries are methods with loop invariants, proved against a ghost function of their inputs:
  - `Headers.FormatHeaders`, `Headers.FormatDictNames` and `Codes.CreateIntcodes`;
  - `Dense.FormatDense` (over an `array`);
  - `Tables.AddField` (over an `array`), `Tables.AddDataFields` and `Merge.MergeFormatted`.
- `Parameters` is a class whose methods update `interactive` and `params` in place.
- `Workflow` is a class, and its generators are functions returning the sequence of items they yield.

Modules:
- `outcomes.dfy`: `Option`, `Result`, `Error`.
- `strings.dfy`: `'%d'`, string `<`, `sorted`, `'_'.join`.
- `codes.dfy`: `broadcast`, `create_intcodes`.
- `headers.dfy`: `format_headers`, `format_dict_names`.
- `tables.dfy`: arrays, `add_field`, `add_data_fields`.
- `dense.dfy`: `format_dense`.
- `merge.dfy`: `merge_formatted`.
- `paths.dfy`: `os.path`, `_clean_name`.
- `params.dfy`: `Parameters`.
- `workflow.dfy`: `Workflow`.

## Model

| member | source | states |
|---|---|---|
| Strings.NatToString | utils/form_func.py:614 | `'%d' % n` of a non-negative number is a non-empty string of decimal digits |
| Strings.NatToStringInjective | utils/form_func.py:619 | different numbers are spelled differently, so different repeat counts give different `_k` suffixes |
| Strings.BelowIrreflexive | utils/form_func.py:645 | no string is below itself under Python's string `<` |
| Strings.BelowTransitive | utils/form_func.py:645 | string `<` is transitive |
| Strings.BelowTotal | utils/form_func.py:645 | of two different strings one is below the other |
| Strings.InsertIncreasing | utils/form_func.py:645 | inserting a new string into a strictly increasing list keeps it strictly increasing and adds exactly that string |
| Strings.SortIncreasing | utils/form_func.py:645 | `sorted` of distinct keys is strictly increasing and a permutation of its input |
| Strings.IncreasingUnique | utils/form_func.py:645 | two strictly increasing lists with the same elements are equal, so the sorted key order is unique |
| Strings.SortedKeys | utils/form_func.py:645 | `sorted(d)` is strictly increasing and holds exactly the keys of d |
| Strings.JoinTwo | code/macroeco/workflow.py:111 | `'_'.join([a, b])` is a, `_`, b |
| Strings.JoinThree | code/macroeco/workflow.py:116 | `'_'.join([a, b, c])` puts one separator between each pair of neighbours |
| Strings.JoinSnoc | code/macroeco/workflow.py:140 | appending a part to a non-empty join appends the separator and that part |
| Codes.AsTuple | utils/form_func.py:556-563 | an `int`, `type` or `str` becomes a one-element tuple, an iterable its own tuple, and any other object fails on `tuple(item)` |
| Codes.Stretch | utils/form_func.py:565-567 | a result exists exactly when the tuple has the requested length or one element; it has the requested length, is the tuple itself when that already fits, and element i is element `i mod len` of the tuple (a single element is repeated) |
| Codes.StretchIdempotent | utils/form_func.py:565-567 | stretching a stretched tuple gives it back unchanged |
| Codes.Format | utils/form_func.py:569-570 | for a template whose every `%` begins a `%s`, as the message of `broadcast` does, `template % args` succeeds exactly when the number of conversions equals the number of arguments, and raises `TypeError` otherwise |
| Codes.MessageHasOneConversion | utils/form_func.py:569 | the failure message of `broadcast` has exactly one conversion: its `$s` is not one |
| Codes.BroadcastAsWritten | utils/form_func.py:556-571 | `broadcast` as written: on success the length is non-negative and the result has exactly that many elements |
| Codes.BroadcastAsWrittenRaisesTypeError | utils/form_func.py:565-570 | as written, broadcasting a two-element item to length 3 raises `TypeError` while formatting the message, not the intended `ValueError` |
| Codes.Broadcast | utils/form_func.py:556-571 | `broadcast` as intended: an uniterable item raises `TypeError`; otherwise it succeeds exactly when the tuple has the requested length or one element (and the length is not negative), and raises `ValueError` otherwise; the result has exactly `length` elements, is the tuple itself when that already fits, and repeats a single element |
| Codes.BroadcastAgrees | utils/form_func.py:556-571 | the code as written and as intended succeed on exactly the same inputs, and give the same tuple there |
| Codes.BroadcastIdempotent | utils/form_func.py:565-567 | broadcasting an already broadcast tuple to the same length returns it unchanged |
| Codes.LastMatch | utils/form_func.py:151-155 | the last index s with `unq_specs[s] == x`: absent exactly when x is not listed; otherwise it holds x and no later index does |
| Codes.CodeAfterStep | utils/form_func.py:151-155 | one pass of the outer loop overwrites exactly the positions whose code is `unq_specs[s]`, with `unq_ints[s]` |
| Codes.CreateIntcodes | utils/form_func.py:146-156 | `AssertionError` exactly when `speclist` is empty or the two tables differ in length; otherwise one value per position, and every position whose code is listed holds the integer of the code's last listing |
| Codes.LastListingWins | utils/form_func.py:151-155 | a position whose code is `unq_specs[s]`, with no later listing of that code, holds `unq_ints[s]` |
| Headers.AsStrings | utils/form_func.py:593-595 | a bare `str` or `int` header becomes a one-element list; a list keeps its length |
| Headers.DigitsNoDeleted | utils/form_func.py:605-606 | a string of digits holds no deleted character |
| Headers.Purge | utils/form_func.py:605-612 | the filtered string holds no deleted character, only characters of its input, and every character of its input outside the delete set |
| Headers.HeaderNames | utils/form_func.py:608-625 | one name per header |
| Headers.TallyStep | utils/form_func.py:617-622 | each header raises the `seen` count of its base by one |
| Headers.TallyCounts | utils/form_func.py:617-622 | `seen.get(b, 0)` is the number of earlier headers with base b |
| Headers.NamesAt | utils/form_func.py:608-622 | after i headers the loop's list has i names, name k being the name of header k |
| Headers.NamesAreHeaderNames | utils/form_func.py:608-625 | the list the loop builds is the one `HeaderNames` describes |
| Headers.FormatHeaders | utils/form_func.py:593-625 | the loop with its `seen` dictionary returns `HeaderNames` of the stringified input: one name per header, and one name for a bare header |
| Headers.Base | utils/form_func.py:611-616 | the cleaned item of header i before de-duplication: stripped, lower-cased, spaces to `_`, deleted characters removed, `column<i>` when empty, reserved words renamed; never empty and never a reserved word |
| Headers.BaseIsClean | utils/form_func.py:605-616 | a cleaned base is non-empty and free of the deleted characters |
| Headers.NameIsClean | utils/form_func.py:605-622 | every emitted name is non-empty and free of the deleted characters |
| Headers.SuffixedIsClean | utils/form_func.py:618-619 | a `_k` suffix keeps a clean base clean |
| Headers.EmptyBecomesColumn | utils/form_func.py:613-614 | a header that cleans to the empty string gets the base `column<i>`, i being its position |
| Headers.ReservedRenamed | utils/form_func.py:598-616 | no emitted name is `return`, `file` or `print`; a cleaned header that is one of them gets a trailing `_` |
| Headers.RenamedNotReserved | utils/form_func.py:598-616 | `itemd.get(s, s)` never yields a reserved word |
| Headers.ReservedWithoutUnderscore | utils/form_func.py:598-602 | a word holding `_` is not reserved |
| Headers.OccurrencesPositive | utils/form_func.py:617-618 | a base seen before has a positive count |
| Headers.FirstOccurrenceUnchanged | utils/form_func.py:617-621 | the first header with a given base is emitted as its base |
| Headers.RepeatSuffixed | utils/form_func.py:617-619 | a later header with an earlier header's base is emitted as `base_k`, where k > 0 is the number of earlier headers with that base |
| Headers.AppendKeepsNames | utils/form_func.py:608-622 | appending a header leaves the names of the earlier headers as they were |
| Headers.FillStep | utils/form_func.py:647-648 | one iteration adds the formatted key with the original key's value |
| Headers.FillMeaning | utils/form_func.py:647-648 | the filled dictionary's keys are exactly the formatted names; a name holds the value of the last key that formats to it |
| Headers.FillValues | utils/form_func.py:647-648 | every value of the filled dictionary is a value of the original |
| Headers.SortedKeysCount | utils/form_func.py:645 | `sorted(d)` has one entry per key |
| Headers.SortedKeyList | utils/form_func.py:645 | the insertion sort of the keys yields `sorted(d)` |
| Headers.DictNames | utils/form_func.py:644-650 | the dictionary `format_dict_names` returns, keyed by the formatted sorted keys; every key is a non-empty name without deleted characters |
| Headers.DictNamesMeaning | utils/form_func.py:644-650 | the new keys are exactly `format_headers(sorted(keys))`; `format_headers(sorted(keys))[i]` holds `old_dict[sorted(keys)[i]]` unless a later key formats to the same name; every value is carried over from the original |
| Headers.FormatDictNames | utils/form_func.py:644-650 | the loop fills the dictionary that `DictNames` describes |
| Tables.IndexOf | utils/form_func.py:543 | the position of a field: it holds that name, and no earlier position does |
| Tables.IndexOfUnique | utils/form_func.py:543 | in an array's distinct names, a field's position is the only one holding it |
| Tables.Column | utils/form_func.py:543 | `a[name]` has one value per record |
| Tables.WithFields | utils/form_func.py:539-544 | `add_field` yields a well-formed array |
| Tables.WithFieldsKeepsColumns | utils/form_func.py:539-544 | `add_field` succeeds exactly when the new and old field names are all distinct, and raises `ValueError` otherwise; the new fields and types come first; the record count is kept, and so is every old field's column |
| Tables.AddField | utils/form_func.py:539-544 | the array-filling loop, field by field, builds what `WithFields` describes |
| Tables.DescrMap | utils/form_func.py:437-444 | a `descr` dictionary must have exactly the keys of `fields_values` (else `ValueError`); a single type code is given to every key; any other `descr` raises `ValueError` |
| Tables.Normalize | utils/form_func.py:453-459 | a value of the right length is kept; an atom or a one-element sequence is repeated to the dataset count; any other sequence makes `broadcast` raise `TypeError` while formatting its message, and the second call in the handler raises it again; an uniterable value raises `TypeError`; every error is `TypeError`; any result has one entry per dataset |
| Tables.NormalizeIdempotent | utils/form_func.py:453-459 | normalising a normalised value changes nothing, so reassigning `fields_values[name]` across datasets is harmless |
| Tables.SetColumn | utils/form_func.py:461 | `data[name] = v` keeps the array well formed |
| Tables.SetColumnMeaning | utils/form_func.py:461 | `data[name] = v` keeps names and types, sets that column to v in every record, and leaves every other column as it was |
| Tables.ReverseAt | utils/form_func.py:450-451 | element q of the reversal is element `len-1-q` of the list |
| Tables.ReverseMembers | utils/form_func.py:450-451 | reversal keeps the members and distinctness |
| Tables.ReverseSnoc | utils/form_func.py:450-451 | prepending one more field name for each key reverses the key order |
| Tables.WithOneField | utils/form_func.py:539-544 | adding one new field prepends its name and type, and a blank cell to every record |
| Tables.ExtendStep | utils/form_func.py:450-461 | adding the next key and setting its column gives the dataset extended by one more key |
| Tables.ExtensionTaken | utils/form_func.py:539-541 | adding a key fails exactly when it is already a field of the original dataset |
| Tables.ExtensionOfNone | utils/form_func.py:449-450 | with no keys the dataset is unchanged |
| Tables.AddKey | utils/form_func.py:450-461 | one inner iteration succeeds exactly when the key is not already a field and its value can be broadcast; a clash raises `ValueError` in `add_field`, and otherwise the failure is `TypeError`; on success it yields the dataset extended by that key, and `fields_values[name]` now holds the broadcast values |
| Tables.ExtendDataset | utils/form_func.py:450-462 | the inner loop succeeds exactly when no key is already a field and every value can be broadcast; without a clash the failure is `TypeError`, and with every value broadcastable it is `ValueError`; on success it yields the dataset extended by all keys, and every key of `fields_values` holds its broadcast values |
| Tables.Rejected | utils/form_func.py:449-461 | a dataset with a clashing key or an unbroadcastable value makes the whole call fail |
| Tables.AcceptedAll | utils/form_func.py:433-461 | a valid `descr`, no clashing key and broadcastable values make the call succeed |
| Tables.AddDataFields | utils/form_func.py:433-463 | `add_data_fields` succeeds exactly when `descr` fits, no key is already a field and every value can be broadcast. A `descr` that does not fit raises `ValueError`; otherwise, with no clash the failure is `TypeError`, and with every value broadcastable it is `ValueError`. On success it returns one array per dataset, dataset i extended by every key with that key's i-th value. The caller's `fields_values` afterwards holds every value broadcast to one per dataset, and is unchanged when there is no dataset |
| Tables.Extension | utils/form_func.py:449-462 | dataset i after the inner loop of `add_data_fields`, the keys' fields prepended with their broadcast values: it keeps the original record count |
| Tables.ExtensionShape | utils/form_func.py:449-451 | an extended dataset is well formed, its names are the reversed keys followed by the old names, and its record count is kept |
| Tables.ExtensionKeeps | utils/form_func.py:542-543 | every old column survives the extension unchanged |
| Tables.ExtensionAdded | utils/form_func.py:451-461 | every added key has its `descr` type and holds its i-th broadcast value in every record of dataset i |
| Tables.ExtensionFields | utils/form_func.py:449-462 | an extended dataset has all of the above at once: shape, kept columns, and added columns |
| Dense.Truncate | utils/form_func.py:259 | an `'S22'` field stores the first 22 characters: a prefix, at most 22 long, and the string itself when it fits |
| Dense.SpeciesCounts | utils/form_func.py:240-250 | an `int` is a one-element tuple; it succeeds exactly when the tuple has one element per array or a single element (else `TypeError`); then entry k is element `k mod len` |
| Dense.SpeciesNames | utils/form_func.py:273-274 | `names[spp_col : spp_col+n]` under Python's clamped slice bounds |
| Dense.KeptNames | utils/form_func.py:257-263 | in both branches of the `dtype` choice, the kept fields number all fields less the species fields |
| Dense.OutNames | utils/form_func.py:259-263 | the long array has two fields more than the kept ones: `spp` and the count field |
| Dense.KeptSource | utils/form_func.py:267-271 | the original position of each kept field lies outside the species range and holds that name |
| Dense.LongRowsLength | utils/form_func.py:265 | the long array has `ls` records per record |
| Dense.BlockAt | utils/form_func.py:268-281 | the records of input record i follow those of the records before it |
| Dense.TargetAt | utils/form_func.py:271-277 | a target record holds the kept fields of its record, its species name cut to 22 characters, and that species' count |
| Dense.FillBlock | utils/form_func.py:270-281 | one slice assignment writes field s of record i's `ls` long records, plus the species names and counts for the first field, and nothing else |
| Dense.FillField | utils/form_func.py:268-281 | one pass over the records, with `cnt` advancing by `ls`, writes kept field s everywhere |
| Dense.ExpandYear | utils/form_func.py:256-281 | the long array before filtering is the one `Expanded` describes |
| Dense.Expanded | utils/form_func.py:256-281 | the long array of one dense array, before zeros are removed: it fails exactly when the new type repeats a field name, and then with `ValueError` |
| Dense.ExpandedShape | utils/form_func.py:259-265 | the long array is well formed, its fields are kept fields then `spp` and the count, and it has `ls` records per record |
| Dense.ExpandedRow | utils/form_func.py:265-281 | long record `ls*i + j` is the target record of record i and species j |
| Dense.ExpandedKept | utils/form_func.py:271-280 | a kept field of long record `ls*i + j` holds record i's value |
| Dense.ExpandedAt | utils/form_func.py:265-281 | record `ls*i + j`, in row-major order: `spp` is species name j, the count is record i's value in that species' field, and every kept field is record i's |
| Dense.ExpandedBlank | utils/form_func.py:265-267 | with no kept field nothing is written, and every long record stays blank |
| Dense.NonZero | utils/form_func.py:283 | the filter keeps exactly the records with a non-zero count |
| Dense.NonZeroAppend | utils/form_func.py:283 | the filter keeps order: it distributes over concatenation |
| Dense.FormatYear | utils/form_func.py:256-284 | one array fails with `ValueError` exactly when a field name repeats, and otherwise is its long array without zero counts |
| Dense.FormatDense | utils/form_func.py:240-285 | `TypeError` when the species counts do not broadcast; otherwise it succeeds exactly when no array's type repeats a field name (else `ValueError`), and then returns one formatted array per input array, in order |
| Merge.PickKindAsWritten | utils/form_func.py:497-505 | as written, two codes give a code exactly when they are equal or of one kind, and it is one of them |
| Merge.AsWrittenKeepsNarrower | utils/form_func.py:501-505 | as written, the string codes `S9` and `S20` give `S9`, the narrower type |
| Merge.PickKind | utils/form_func.py:497-505 | as intended, codes of one kind give the wider; the result has that kind and is at least as wide as both |
| Merge.CorrectedKeepsWider | utils/form_func.py:501-505 | as intended, the string codes `S9` and `S20` give `S20` |
| Merge.PicksShort | utils/form_func.py:496-507 | with fewer picks than fields, some field pair cannot be reconciled |
| Merge.PicksFull | utils/form_func.py:496-507 | with one pick per field, every field has a pick, in field order |
| Merge.PicksMeaning | utils/form_func.py:496-507 | one pick per field exactly when every field pair can be reconciled, and the picks are then those of each field |
| Merge.Reconcile | utils/form_func.py:494-507 | the `con_types` loop yields a result exactly when every field pair can be reconciled; each entry is then its field's reconciled code |
| Merge.MergeStep | utils/form_func.py:488-518 | a successful round keeps one type per field of the merged array; codes of one kind are reconciled as intended, with `PickKind` (the wider one) |
| Merge.MergeStepMeaning | utils/form_func.py:488-518 | different names raise `TypeError`; equal types concatenate; irreconcilable types raise `TypeError`; any failure is `TypeError` or `IndexError`; success keeps the names, appends the records, and gives each field a code of the same kind at least as wide as both |
| Merge.MergeRound | utils/form_func.py:488-518 | the loop body, branch by branch, computes `MergeStep` |
| Merge.Merged | utils/form_func.py:486-519 | a successful merge, with the intended wider pick of `PickKind`, has one type per field |
| Merge.MergedErrStays | utils/form_func.py:487-516 | once a round raises, the result is that error |
| Merge.MergeFormatted | utils/form_func.py:482-519 | an empty list raises `IndexError`; a single array is returned as is; otherwise the arrays are merged round after round, reconciling string codes as intended with `PickKind` (the wider one) |
| Merge.ConcatRows | utils/form_func.py:493-518 | the records of all arrays in list order: those of the first array come first, those of a single array are all of them, and no array has more records than the whole |
| Merge.MergedNamesRows | utils/form_func.py:486-519 | a successful merge has every array's field names, and all records in list order |
| Merge.KindsCoverStep | utils/form_func.py:496-513 | a round keeps the merged codes covering the arrays so far and covers the next |
| Merge.MergedKinds | utils/form_func.py:486-519 | each merged code has the kind of every array's code for that field and is at least as wide |
| Merge.MergedMeaning | utils/form_func.py:482-519 | a successful merge has the same names as every array, all records in order, and codes of each field's kind wide enough for every array |
| Merge.SameTypesMerge | utils/form_func.py:517-518 | arrays of one type merge into the concatenation of their records, under that type |
| Paths.RFind | code/macroeco/workflow.py:265 | the last index of a character, or -1 when it does not occur |
| Paths.Tail | code/macroeco/workflow.py:58 | `os.path.split(p)[-1]`, the base name: it ends p, has no `/`, and follows a `/` when it is not all of p |
| Paths.SplitExt | code/macroeco/workflow.py:57 | `os.path.splitext`: root followed by extension is the path |
| Paths.SplitExtExtension | code/macroeco/workflow.py:57 | an extension is a dot and what follows it, with no other dot and no `/` |
| Paths.CleanName | code/macroeco/workflow.py:264-265 | `_clean_name(fp)`, the root of the base name: it starts the base name and has no `/` |
| Paths.CleanNameCut | code/macroeco/workflow.py:264-265 | with an extension in the base name, `_clean_name` is the base name up to the last dot |
| Paths.ScriptName | code/macroeco/workflow.py:57-58 | the script name, the base name of the root of `argv[0]`: it has no `/` |
| Paths.ScriptNameCut | code/macroeco/workflow.py:57-58 | with such an extension, the script name is the same cut |
| Paths.ScriptNameIsCleanName | code/macroeco/workflow.py:57-58 | the script name, with the extension removed first, equals `_clean_name(argv[0])`, with the directory removed first |
| Paths.CleanNameOfTail | code/macroeco/workflow.py:264-265 | `_clean_name` ignores the directories |
| Params.Get | code/macroeco/workflow.py:228 | `elt.get(key)` is the attribute's value, or `None` when the element has no such attribute |
| Params.Interactivity | code/macroeco/workflow.py:230-237 | interactive exactly when the attribute is present and not `F`, `False`, `f` or `false` |
| Params.AutoNamesDistinct | code/macroeco/workflow.py:243 | different counters give different autonames |
| Params.RunKey | code/macroeco/workflow.py:240-244 | a named run keeps its name and the counter; an unnamed one is `autoname<count>` and advances it |
| Params.RunValues | code/macroeco/workflow.py:245-248 | the dictionary of one run, later `param` children overriding earlier ones; a run without `param` children has an empty one |
| Params.RunValuesKeys | code/macroeco/workflow.py:246-248 | a run's dictionary has exactly the names of its `param` children |
| Params.RunValuesLast | code/macroeco/workflow.py:246-248 | each entry holds the value of the last `param` child with that name |
| Params.AfterRuns | code/macroeco/workflow.py:238-248 | the runs recorded and the counter after the runs of one analysis: no recorded run is dropped and the counter never goes back |
| Params.AfterRunsCount | code/macroeco/workflow.py:238-244 | the counter advances exactly once per unnamed run |
| Params.KeyStep | code/macroeco/workflow.py:239-245 | one run adds its own key to the keys found so far |
| Params.KeysStep | code/macroeco/workflow.py:239-245 | one run more keeps the keys described: earlier keys, names of the named runs, one autoname per unnamed run |
| Params.NoRunKeys | code/macroeco/workflow.py:238 | before any run the keys are those found before |
| Params.AfterRunsKeys | code/macroeco/workflow.py:238-248 | the keys after the runs are the earlier keys, the names of the named runs, and one autoname per unnamed run |
| Params.ScriptNames | code/macroeco/workflow.py:228 | the `scriptname` attribute of each top-level element |
| Params.AfterChildren | code/macroeco/workflow.py:224-248 | the state after the top-level elements, with one `params` dictionary and one `runcount` shared by every matching analysis: no recorded run is dropped and the counter never goes back |
| Params.InteractiveFromLastMatch | code/macroeco/workflow.py:226-237 | `interactive` is set by the last analysis for the script, and is unchanged when none matches |
| Params.OtherScriptsIgnored | code/macroeco/workflow.py:226-228 | analyses of other scripts change nothing |
| Params.Parameters.constructor | code/macroeco/workflow.py:184-186 | a new `Parameters` has no interactivity and no runs |
| Params.Parameters.ReadValues | code/macroeco/workflow.py:245-248 | a run's entry becomes the dictionary of its `param` children; nothing else changes |
| Params.Parameters.ReadRuns | code/macroeco/workflow.py:238-248 | the runs of an analysis update `params` and the counter as `AfterRuns` describes |
| Params.Parameters.ReadFromXml | code/macroeco/workflow.py:224-248 | `interactive` and `params` after the file are those `AfterChildren` describes, with the counter starting at 0; the script name is unchanged |
| Workflows.FileId | code/macroeco/workflow.py:111 | the identifier of a data file is the script, `_`, and the file's clean name |
| Workflows.RunFileId | code/macroeco/workflow.py:116 | within a run, the file identifier is followed by `_` and the run name |
| Workflows.FileJobs | code/macroeco/workflow.py:109-112 | one item per data file, in order, with its identifier and no values |
| Workflows.RunBlock | code/macroeco/workflow.py:115-117 | one run yields one item per data file, in order, with the run's values |
| Workflows.RunJobs | code/macroeco/workflow.py:114-117 | the items of the first n runs, run outer and data file inner; without data files there are none |
| Workflows.RunJobsLength | code/macroeco/workflow.py:114-117 | the runs yield one item per run and data file |
| Workflows.RunJobsPrefix | code/macroeco/workflow.py:114-117 | a later run only appends items to those of the runs before it |
| Workflows.RunJobsBlockPrefix | code/macroeco/workflow.py:114-117 | the items of the runs before run a, then those of run a, start the items of all runs |
| Workflows.RunJobsBlockAt | code/macroeco/workflow.py:114-117 | the block of run a follows those of earlier runs |
| Workflows.RunJobsIndex | code/macroeco/workflow.py:114-117 | item `a*len(dfs) + b` exists, and the runs before run a yield `a*len(dfs)` items |
| Workflows.RunBlockAt | code/macroeco/workflow.py:115-117 | item b of a run is data file b with ID `script_clean(df)_run` and the run's values |
| Workflows.RunJobsAt | code/macroeco/workflow.py:114-117 | item `a*len(dfs) + b` is data file b within run a, with ID `script_clean(df)_run` and that run's values |
| Workflows.CleanNames | code/macroeco/workflow.py:132 | `map(_clean_name, datafiles)` |
| Workflows.AllId | code/macroeco/workflow.py:132-133 | the joint identifier `'_'.join([script] + datanames)`: it starts with the script name, and is the script name alone without data files |
| Workflows.AllRunId | code/macroeco/workflow.py:140 | within a run, the joint identifier is followed by `_` and the run name |
| Workflows.OneFileIds | code/macroeco/workflow.py:132-133 | with one data file, the identifier of `all_datasets` equals the one `single_datasets` gives that file |
| Workflows.Workflow.constructor | code/macroeco/workflow.py:57-91 | the object holds its script, data files, runs and interactivity |
| Workflows.Start | code/macroeco/workflow.py:55-91 | no `argv[0]` raises `IndexError`; no data file exits. Otherwise: the script name comes from `argv[0]`; the data files are `argv[1:]`; runs exist exactly when the parameter file parses; runs are read as `read_from_xml` describes, with interactivity taken from them; without runs, interactivity is False |
| Workflows.Workflow.SingleDatasets | code/macroeco/workflow.py:95-117 | the items `single_datasets` yields: one per data file without runs; none at all without data files |
| Workflows.Workflow.AllDatasets | code/macroeco/workflow.py:120-141 | the items `all_datasets` yields: one without runs, one per run with runs; every item holds all data files and an identifier that starts with the joint identifier, and values exactly when there are runs |
| Workflows.SingleWithoutRuns | code/macroeco/workflow.py:108-112 | without runs, one item per data file, in order, with ID `script_clean(df)` |
| Workflows.SingleWithRuns | code/macroeco/workflow.py:113-117 | with runs, run outer and data file inner: item `a*len(dfs) + b` has ID `script_clean(df)_run` and that run's values |
| Workflows.SingleWithNoRuns | code/macroeco/workflow.py:113-117 | an empty run dictionary yields nothing |
| Workflows.AllDatasetsMeaning | code/macroeco/workflow.py:132-141 | without runs, one item with ID `script` plus every clean name joined by `_`; with runs, one item per run with `_run` appended and that run's values |

## Left out

- `code/macroeco/predict_energy.py`: floating-point densities, grids and a root finder, not bookkeeping.
- The file and CSV helpers of `utils/form_func.py` and `fractionate`: I/O, globbing and float grids.
- XML parsing: the parameter file is a `ParamFile`, missing, unparsable or parsed into an element tree. `read_from_xml` raises for a missing file and fails on the unbound root for an unparsable one. Both land in `Workflow.__init__`'s bare `except`, which is all the model keeps.
- Logging, `csv2rec` loading of `Workflow.data`, `make_map`, the dialog in `later`, and `asklist`. `Parameters.__init__` reads `is_asklist_fulfilled` without calling it, and a bound method is always true, so it changes nothing.
- `sys.argv` is the parameter `argv`. `sys.exit()` is the error value `SystemExit`.
- The order in which a Python 2 dictionary yields its keys is the parameter `order`. Generators are the sequences of the items they yield.
- Tables.AddDataFields and Tables.WithFields: the type guards of `add_data_fields` (`TypeError` when `fields_values` is not a dict) and of `add_field` (`ValueError` for an unstructured array) cannot fail, because the typed inputs are always a map and a structured array.
- Workflows.Start: the `asklist` assertion in `Parameters.__init__` is left out, because the workflow always passes a dictionary.
- Codes.CreateIntcodes: says nothing about positions whose code is not listed, because `np.empty` leaves them uninitialised. The model compares codes without the conversion `speclist.astype(unq_specs.dtype)`. That conversion can truncate a code (`'abcd'` under `S3` becomes `'abc'` and then matches) or turn numbers into strings, because numpy's string conversions are not modelled. The same cast raises `ValueError` when the codes cannot be converted, for example strings cast to a numeric type; the model has no such error. The `dtype` argument is not modelled either: the source stores each integer in `np.empty(len(speclist), dtype=dtype)`, so `tot_int[i] = unq_ints[s]` casts it (to a float by default, truncating a fractional code under `dtype=int`), while an element of the model's result is `unq_ints[s]` itself.
- Dense.FormatDense: cell values are copied without numpy's conversion to the field types. A count of zero is the cell `Num(0.0)`. `spp_col` and the species counts are non-negative, because Python's negative slice bounds are not modelled.
- Merge.MergeStep: the records are not converted with `astype` to the reconciled types, and stay as they were.
- Merge.MergeFormatted: reconciles string codes of one kind with the corrected `PickKind`, which keeps the wider code. The source keeps the larger string under `m > d`, so `S9` with `S20` gives `S9` there and `astype` then truncates the longer values (see the findings).
- Tables.AddDataFields: a string value whose length equals the number of datasets is treated as an atom. The source would index it character by character. After a failure, the partly rewritten `fields_values` is not described.
- Tables.AddDataFields: `data[name] = value` stores the cell without numpy's conversion to the field's type, because numpy's casts are not modelled. The source cuts a string under `S20` to 20 characters, stores a number as text, and raises `ValueError` for a non-numeric string in a `<f8` field.
- Tables.ExtensionAdded: states that each added field holds the broadcast value itself, without that conversion to the field's type.
- Tables.SetColumnMeaning: states that the column holds v itself, without that conversion to the field's type.
- Headers.FormatHeaders: float headers and `str` of floats are left out. `lower()` and `strip()` are modelled on ASCII.
- Headers.FormatDictNames: keys are strings only. The source sorts keys of any type before `str()` is applied, and Python 2 sorts an `int` before a `str`, which decides which value wins for keys such as `1` and `'1'`.
- Paths.SplitExt: POSIX paths with `/` only.

## Findings

| source | as written | input that shows it | evidently intended | confidence | as-written member | corrected member |
|---|---|---|---|---|---|---|
| utils/form_func.py:569-570 | the failure message has one `%s` and a `$s`, but is formatted with two arguments, so `%` raises `TypeError` | `broadcast(3, (1, 2))` | raise `ValueError('Could not broadcast ...')` | not executed | Codes.BroadcastAsWrittenRaisesTypeError | Codes.Broadcast |
| utils/form_func.py:502 | type codes of one kind are compared as strings with `m > d`, which keeps the string code `S9` over `S20`, the narrower type | merging an array whose field has string code `S9` with one whose field has `S20` | keep the wider type, so that every value fits | not executed | Merge.AsWrittenKeepsNarrower | Merge.CorrectedKeepsWider |

`add_data_fields` is modelled with `broadcast` as written, because its handler depends on the error `broadcast` raises. Within `add_data_fields` both `broadcast` calls then raise `TypeError`, where the corrected `broadcast` would raise `ValueError`. The two succeed on the same inputs with the same result (`Codes.BroadcastAgrees`). `merge_formatted` is modelled with the corrected type pick.
