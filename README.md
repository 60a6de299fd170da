# endless: a verified model of the document store's data shaping

`endless` stores JSON-like documents in one Cassandra table,
`datastore(collection_id, item_id, key, value)`. A slash-separated key such
as `users/42` names a document. `create_keys` turns the key into the row
address `(collection_id, item_id)`. `split` flattens the document into one
row per leaf: the slash-joined path goes in `key` and the encoded leaf goes
in `value`. `combine` rebuilds the nested dict from those rows. `put`
writes a batch of inserts, optionally led by a delete. `scan`/`get` read
the rows of one document back. `deep_scan` reads a range of documents of
one collection, and `construct` groups the rows into one document per item
id. A small memo cache, keyed by `_make_key_str`, serves `connect`.

This project models that core in Dafny and proves what it promises. The
modules are:

- `Wrappers`: `Option`, `Result`, and the errors the Python code raises
  (`InvalidKey` for the `assert` in `create_keys`; `PathIsNone`,
  `EmptyPath` and `NotAMapping` for the ways `combine` raises).
- `Strings`: `str.count`, `str.split`, `join`, `filter(None, …)`, and the
  code-point order in which the table sorts text.
- `Keys`: `ROOT`, `create_keys`, and the collection a deep scan reads.
- `Values`: documents as a closed datatype, and `clean`.
- `Flatten`: `split`, with an independent description of a document's
  leaves.
- `Rebuild`: `combine`, as a function and as a loop. The round trip
  `combine(split(d)) == clean(d)` is proved here for the rows in the order
  `split` emits them.
- `Reorder`: the same round trip for the rows in any order. `get` returns
  rows sorted by `key` (the clustering column of the table, fabfile.py:23),
  not in the order `put` wrote them. The result is then compared with
  `Values.SameDoc`. It ignores the entry order of dicts, and is finer than
  Python's `==` and implies it: lists are compared exactly, including the
  entry order of dicts inside them, and an `Int` never equals a `Float`.
- `Queries`: `build_scan_stmt` and `build_deep_scan_stmt`. Each select is
  kept as a list of conditions with their arguments, plus the optional row
  cap. `Selects` gives the meaning: which `(collection_id, item_id)` rows
  the select returns.
- `Grouper`: `construct`, as a loop over the row stream. It is proved
  against `Emit(Runs(rows)[..Quota])`, where `Runs` cuts the rows into
  maximal runs of equal item ids and `Emit` combines each run.
- `Client`: the statement and argument lists of `Client.put` and
  `Client.delete`. They are connected to the scan that reads the document
  back.
- `Tools`: `_make_key_str`, and `memoize` as a class that holds the shared
  results map.

Three behaviours of the key scheme shape what the model proves:

- A key of exactly two segments maps to the whole trimmed key as
  collection and `ROOT` as item (endless/endless.py:70-71), so `a/b` is
  stored under `(a/b, ROOT)`, in the collection that also holds its
  children `a/b/x`.
- `ROOT` is `||ROOT||` (endless/endless.py:24). The pipe sorts after digits
  and letters, so the default strict upper bound `< ROOT` of a deep scan
  admits ordinary ids and excludes the root document. It also excludes
  every id that starts above the pipe, such as `}`, `~` or a non-ASCII
  letter like `é`: a default deep scan never returns such an item
  (`Queries.DeepScanSkipsHighIds`).
- A deep scan of a two-segment key `a/b` reads the collection
  `a/b/||ROOT||` (endless/endless.py:258), while the children of `a/b` are
  stored in collection `a/b`. `Queries.DeepScanFindsChildren` states for
  which keys a deep scan finds the children.

`split` and `combine` are inverse only on part of the documents.
`Rebuild.RoundTrip` requires a `Storable` document: a dict whose own keys,
and the keys of every dict nested in it, are non-empty, slash-free and
distinct, and whose nested dicts are all non-empty (the document itself may
be empty). Not every exclusion is needed everywhere: a blank key is lost
only below the top level, or when it holds a dict. At the top level,
`{"": 1}` comes back whole (`Rebuild.BlankTopKeyIsKept`), although it is not
`Storable`. `Rebuild.NonDictIsNotRecoverable` shows that a document that is
not a dict is rejected by `combine`.
`Rebuild.EmptyDictIsLost` shows that an empty nested dict leaves no row, so
its key is missing after `combine`. `Rebuild.SlashKeyIsSplit` shows that a
key holding '/' comes back as nested dicts. Distinct keys hold of every
Python dict; the model needs them stated because a dict is an association
list here. `Flatten.SplitIsLeaves` holds of every value. An empty key is
dropped from the path by `filter(None, …)`, so `{"a": {"": 1}}` splits to
the single pair `("a", 1)` (`Flatten.BlankKeyIsDropped`).

## Model

| member | source | states |
|---|---|---|
| Strings.Count | endless/endless.py:65 | the count of a character is at most the length, and zero exactly when the character is absent |
| Strings.CountAppend | endless/endless.py:65 | counting distributes over concatenation |
| Strings.SplitOn | endless/endless.py:68 | `str.split` yields one more part than there are separators, and no part contains the separator |
| Strings.NonEmpty | endless/endless.py:131 | `filter(None, parts)` keeps only non-empty parts drawn from the input, and keeps everything when nothing is empty |
| Strings.NonEmptyKeeps | endless/endless.py:131 | `filter(None, parts)` drops every empty part and keeps every non-empty part as often as it occurs |
| Strings.NonEmptyAppend | endless/endless.py:131 | filtering a concatenation filters each part in turn, so the order is kept |
| Strings.Join | endless/endless.py:119 | `sep.join(parts)`, as used at endless/endless.py:71, 73 and 119 and endless/tools.py:58 and 60; `Strings.JoinSplit`, `Strings.SplitJoin` and `Strings.JoinSnoc` state its properties |
| Strings.JoinSplit | endless/endless.py:68-73 | joining the parts of a split with the separator gives the string back |
| Strings.SplitGluesHead | endless/endless.py:68 | a separator-free head is glued onto the first part of the split of the rest |
| Strings.SplitJoin | endless/endless.py:131 | splitting a join of separator-free parts gives the parts back |
| Strings.JoinSnoc | endless/endless.py:73 | joining with one more part appends the separator and that part |
| Strings.JoinNonEmpty | endless/endless.py:119 | a join whose first part is non-empty is non-empty |
| Strings.JoinShape | endless/endless.py:119 | a join of non-empty, separator-free parts is non-empty, and contains the separator exactly when there are two or more parts |
| Strings.LessIrreflexive | endless/endless.py:24 | no id sorts strictly before itself |
| Strings.LessAsymmetric | endless/endless.py:24 | two ids never sort strictly before each other |
| Strings.LessTransitive | endless/endless.py:24 | the sort order is transitive |
| Strings.LessTotal | endless/endless.py:24 | any two ids are equal or ordered one way |
| Keys.TrimSlashes | endless/endless.py:59-63 | one trailing '/', then one leading '/', removed; `Keys.CreateKeys` states its use |
| Keys.CreateKeys | endless/endless.py:57-73 | fails exactly when no '/' is left after trimming one trailing and one leading '/'; two segments give (whole trimmed key, ROOT); more give a slash-free item id that, re-joined to the collection with '/', is the trimmed key |
| Keys.DeepScanCollection | endless/endless.py:258 | the deep-scan collection is the trimmed key, a `/` and ROOT for two segments and the trimmed key for more; it fails exactly when `create_keys` does |
| Keys.LastSlashUnique | endless/endless.py:72-73 | a string splits in at most one way into a head, a '/', and a slash-free tail |
| Keys.SplitAtLast | endless/endless.py:68-73 | a key with a '/' splits into two or more parts that re-join to it; the last part is slash-free, and all but the last re-joined, then '/', then the last, give the key |
| Keys.DeepScanReadsItself | endless/endless.py:258 | a deep scan of a trimmed key `p` reads collection `p` itself exactly when `p` has three or more segments |
| Keys.ChildKeys | endless/endless.py:72-73 | a child key `p/x` of a key with at least two segments maps to `(p, x)` |
| Keys.RootBoundsOrdinaryIds | endless/endless.py:24 | every id whose first character sorts below the pipe sorts before ROOT |
| Keys.RootBoundsHighIds | endless/endless.py:24 | no id whose first character sorts above the pipe sorts before ROOT |
| Values.Keys | endless/endless.py:97 | the keys of a dict, one per entry, in order |
| Values.Clean | endless/endless.py:94-113 | `clean` keeps dicts as dicts with the same keys in the same order, and turns lists, tuples and sets into lists of the same length |
| Values.CleanItems | endless/endless.py:96-99 | cleaning a dict value-wise keeps its keys |
| Values.CleanElems | endless/endless.py:101 | cleaning elements keeps their number |
| Values.CleanIsClean | endless/endless.py:94-113 | everything `clean` returns is built only from dicts, lists, strings and numbers |
| Values.CleanItemsAreClean | endless/endless.py:96-99 | every value of a cleaned dict is clean |
| Values.CleanElemsAreClean | endless/endless.py:101 | every cleaned element is clean |
| Values.CleanFixesClean | endless/endless.py:94-105 | `clean` returns a clean value unchanged |
| Values.CleanItemsFix | endless/endless.py:96-99 | cleaning a dict of clean values changes nothing |
| Values.CleanElemsFix | endless/endless.py:101 | cleaning a list of clean values changes nothing |
| Values.SameDoc | endless/endless.py:127-138 | a relation finer than Python's `==` that implies it: dicts with the same keys whose values under each key are again `SameDoc`, in any entry order; lists and every other value compared exactly, so the entry order of dicts inside lists counts and an `Int` never equals a `Float` |
| Values.CleanIdempotent | endless/endless.py:120 | `clean` is idempotent, so the second cleaning that `split` applies changes nothing |
| Flatten.ChildPath | endless/endless.py:119 | the path of key `k` below `parent`; `Flatten.ChildPathRenders` states its meaning |
| Flatten.CleanPairs | endless/endless.py:120 | the `clean(v2)` applied to each pair coming up from a nested level; `Flatten.FieldIsLeaves` and `Flatten.SplitIsLeaves` state what it yields |
| Flatten.Split | endless/endless.py:116-124 | `split` of a document below `parent`; `Flatten.SplitIsLeaves` and `Flatten.SplitValuesAreClean` state what it emits |
| Flatten.SplitItems | endless/endless.py:117-120 | the pairs of a dict's entries, in iteration order; `Flatten.SplitItemsAreLeaves` states them |
| Flatten.SplitValuesAreClean | endless/endless.py:116-124 | every value `split` emits is clean |
| Flatten.SplitItemsValuesAreClean | endless/endless.py:117-120 | every value emitted for a dict's entries is clean |
| Flatten.LeavesAreClean | endless/endless.py:116-124 | every leaf value of a document is clean |
| Flatten.LeavesItemsAreClean | endless/endless.py:117-120 | every leaf value below a dict's entries is clean |
| Flatten.LeafPathsAreGood | endless/endless.py:119 | the leaves of a nested value are addressed by non-empty, slash-free keys, with at least one key below a dict, and there is at least one leaf |
| Flatten.LeafItemPathsAreGood | endless/endless.py:119 | the same for the leaves below a dict's entries |
| Flatten.ChildPathRenders | endless/endless.py:119 | `'/'.join(filter(None, [parent, k]))` renders the parent keys followed by `k`, with every empty key dropped and `None` only when no key is left |
| Flatten.SplitIsLeaves | endless/endless.py:116-124 | for any value, `split` emits exactly its leaves, in order, each at the slash-joined path of its non-empty keys |
| Flatten.SplitItemsAreLeaves | endless/endless.py:117-120 | the same for the entries of a dict |
| Flatten.FieldIsLeaves | endless/endless.py:117-120 | the cleaned pairs of one field, for any key, are that field's leaves under its key, rendered below the parent path |
| Flatten.SplitCountsLeaves | endless/endless.py:116-124 | any value yields one pair per leaf, so an empty nested dict yields nothing |
| Flatten.SplitPathsNonEmpty | endless/endless.py:116-124 | below a dict whose keys are all non-empty, every pair has a non-empty path |
| Flatten.BlankKeyIsDropped | endless/endless.py:119 | `{"a": {"": 1}}` splits to the single pair `("a", 1)` |
| Flatten.LeafPathsNonBlank | endless/endless.py:119 | the leaves of a value with non-empty keys are addressed by non-empty keys, at least one below a dict |
| Flatten.LeafItemPathsNonBlank | endless/endless.py:117-119 | the same for the leaves below a dict's entries |
| Rebuild.Get | endless/endless.py:134 | `d.get(k)`; `Rebuild.GetMisses` states when it misses |
| Rebuild.GetPath | endless/endless.py:133-135 | the value reached by following the keys through nested dicts; `Rebuild.Insert` states that the descent puts the value there |
| Rebuild.GetMisses | endless/endless.py:134 | a lookup misses exactly when the key is absent |
| Rebuild.Put | endless/endless.py:135-137 | dict assignment makes the key hold the value, leaves every other key as it was, and appends a new key at the end |
| Rebuild.PutHere | endless/endless.py:137 | assigning the key of the first entry replaces that entry and keeps every other lookup |
| Rebuild.PutLater | endless/endless.py:137 | assigning a key not in the first entry keeps that entry in front, and appends when the key is new |
| Rebuild.PutPut | endless/endless.py:135-137 | a second assignment to the same key overwrites the first |
| Rebuild.Insert | endless/endless.py:130-135 | the `setdefault` descent puts the value at the path and changes no other top-level key; its only error is `NotAMapping` |
| Rebuild.InsertFailsOnNonDict | endless/endless.py:130-135 | the descent fails exactly when some proper prefix of the path leads to a value that is not a dict |
| Rebuild.PathMissing | endless/endless.py:133-134 | below a missing first key, `setdefault` creates empty dicts, so nothing blocks the path |
| Rebuild.PathDescends | endless/endless.py:133-134 | below a dict under the first key, the path is blocked exactly when the rest of it is blocked inside that dict |
| Rebuild.Segments | endless/endless.py:130-137 | the keys of a path are at least one; they fail exactly for a `None` path or a path made only of slashes |
| Rebuild.CombineFrom | endless/endless.py:127-138 | `combine` from a given dict; `Rebuild.RoundTrip`, `Rebuild.CombineOverwrite` and `Rebuild.CombineFromAppend` state its results |
| Rebuild.Combine | endless/endless.py:127-138 | the loop over the pairs yields the dict that `CombineFrom` describes, or the first error |
| Rebuild.InsertOverwrite | endless/endless.py:130-135 | inserting at the same path twice keeps only the later value |
| Rebuild.InsertFailureIgnoresValue | endless/endless.py:133-134 | whether the descent fails does not depend on the value being inserted |
| Rebuild.CombineOverwrite | endless/endless.py:127-138 | a later pair with an identical path overwrites an earlier one |
| Rebuild.NonDictIsNotRecoverable | endless/endless.py:123-124 | a document that is not a dict splits into one pair with a `None` path, which `combine` rejects |
| Rebuild.EmptyDictIsLost | endless/endless.py:116-120 | a document `{k: {}}` splits into no pair, so `combine` returns an empty dict, while `clean` keeps the key |
| Rebuild.BlankTopKeyIsKept | endless/endless.py:116-137 | `{"": 1}` is not `Storable`, yet it splits to `("", 1)` and `combine` rebuilds it whole |
| Rebuild.SlashKeyIsSplit | endless/endless.py:116-135 | a document `{'a/b': v}` splits into one pair at path `a/b`, which `combine` rebuilds as `{'a': {'b': v}}` |
| Rebuild.SegmentsOfAB | endless/endless.py:130-131 | the path `a/b` is read as the keys `a` and `b` |
| Rebuild.CombineFromAppend | endless/endless.py:129 | combining `ps + qs` continues from the result of combining `ps` |
| Rebuild.SegmentsOfRender | endless/endless.py:119 | the keys `combine` reads from a path that `split` built are the keys it was built from |
| Rebuild.CombineRendered | endless/endless.py:127-138 | combining the rendered leaves is inserting the leaves key list by key list |
| Rebuild.InsertAllAppend | endless/endless.py:129 | inserting `ls + ms` continues from the result of inserting `ls` |
| Rebuild.InsertAllUnder | endless/endless.py:133-135 | inserting leaves that all live under key `k` rebuilds the dict under `k` and changes nothing else |
| Rebuild.PutSame | endless/endless.py:137 | assigning a key its current value changes nothing |
| Rebuild.InsertAllFields | endless/endless.py:117-120 | inserting the leaves of fresh, distinct fields appends those fields, cleaned and in order |
| Rebuild.FreshAfterField | endless/endless.py:117-120 | after the first field is placed, the remaining fields are still fresh |
| Rebuild.InsertField | endless/endless.py:117-120 | inserting one field's leaves appends that field, cleaned |
| Rebuild.GetAppend | endless/endless.py:134 | appending an entry for another key does not change a lookup |
| Rebuild.RoundTrip | endless/endless.py:116-138 | for a storable document, combining the pairs `split` yields gives `clean(d)`, entry for entry |
| Reorder.InsertPart | endless/endless.py:130-135 | inserting a leaf of the document into a dict that is part of it succeeds and keeps it part of the document |
| Reorder.InsertKeeps | endless/endless.py:130-135 | inserting a leaf of the document keeps every leaf already placed |
| Reorder.CombineLeaves | endless/endless.py:127-138 | combining pairs that name leaves of the document, in any order, succeeds, stays part of the document and places every pair |
| Reorder.Complete | endless/endless.py:127-138 | a part of a nested document holding every leaf of it is the same document, up to entry order |
| Reorder.CleanFields | endless/endless.py:96-99 | cleaning keeps a nested document nested under the same keys |
| Reorder.LeavesAreLeafAt | endless/endless.py:116-124 | every leaf `split` sees is found along its keys in the cleaned document |
| Reorder.LeafAtIsLeaf | endless/endless.py:116-124 | every leaf of the cleaned document is a leaf `split` sees |
| Reorder.PairsAreLeaves | endless/endless.py:116-124 | every pair among any reordering of what `split` yields for a storable document names a leaf of the cleaned document |
| Reorder.PairsCoverLeaves | endless/endless.py:116-138 | once every such pair is placed, every leaf of the cleaned document is found in the result |
| Reorder.RoundTripAnyOrder | endless/endless.py:116-138 | for a storable document, combining the pairs `split` yields, in any order, succeeds and gives a document equal to `clean(d)` as Python compares dicts |
| Queries.Holds | endless/endless.py:243-280 | whether one condition of a where clause holds of a row address; `Queries.UpperHolds` and `Queries.LowerHolds` state the bounds |
| Queries.Selects | endless/endless.py:250 | whether a select returns a row address: every condition holds; `Queries.SelectsByClause` states the conjunction |
| Queries.ScanQuery | endless/endless.py:237-254 | the scan fails exactly when `create_keys` does, has no row cap, and returns exactly the rows of the one address `create_keys` gives |
| Queries.SelectsByClause | endless/endless.py:250 | conditions joined by `and` hold exactly when each holds |
| Queries.BuildScanStmt | endless/endless.py:237-254 | appending the two conditions and their arguments builds the scan select |
| Queries.Upper | endless/endless.py:266-273 | the upper-bound clause and its argument; `Queries.UpperHolds` states its meaning |
| Queries.Lower | endless/endless.py:275-280 | the lower-bound clause and its argument, if any; `Queries.LowerHolds` states its meaning |
| Queries.UpperHolds | endless/endless.py:266-273 | the upper-bound condition holds exactly when the id is below `lte` (inclusive), else below `lt`, else below ROOT |
| Queries.LowerHolds | endless/endless.py:275-280 | there is at most one lower-bound condition, one exactly when `gte` or `gt` is truthy, and it holds exactly when the id is above the bound |
| Queries.DeepSelect | endless/endless.py:260-280 | the select starts with the collection condition and its argument, then one upper-bound condition, then at most one lower-bound condition, one argument per condition |
| Queries.DeepSelectMeaning | endless/endless.py:260-280 | the select returns exactly the rows of its collection whose ids lie within both bounds |
| Queries.DeepScanQuery | endless/endless.py:257-289 | the collection condition comes first, then exactly one upper bound (`<= lte`, else `< lt` defaulting to ROOT), then at most one lower bound (`gte` before `gt`), one argument per condition; the row cap is `limit * keys_per_item` only for a truthy limit; the select returns exactly the ids of the collection within the bounds |
| Queries.BuildDeepScanStmt | endless/endless.py:257-289 | appending conditions and arguments as the bounds are examined builds the deep-scan select |
| Queries.BuildDeepSelect | endless/endless.py:263-280 | appending the collection condition, one upper bound and at most one lower bound, with their arguments, builds `DeepSelect` |
| Queries.DeepScanSkipsHighIds | endless/endless.py:264-273 | a deep scan with no bounds never returns an item whose id starts above the pipe |
| Queries.DeepScanDefaultBounds | endless/endless.py:266-273 | with no bounds a deep scan returns every ordinary id of its collection and never ROOT |
| Queries.DeepScanNextPage | endless/endless.py:278-280 | continuing with `gt` set to the last id returns no id at or below it |
| Queries.DeepScanBoundPrecedence | endless/endless.py:268-280 | when `lte` and `gte` are given, `lt` and `gt` do not change the select |
| Queries.DeepScanFindsChildren | endless/endless.py:258 | the default deep scan of `p` returns the child `p/x` exactly when `p` has three or more segments |
| Grouper.Runs | endless/endless.py:296-307 | the maximal runs of equal item ids; `Grouper.RunsFlat`, `Grouper.RunsUniform` and `Grouper.RunsMaximal` state that they are |
| Grouper.Emit | endless/endless.py:298-311 | one combined document per run up to the first failing `combine`; `Grouper.EmitCount` and `Grouper.EmitDocs` state it |
| Grouper.Quota | endless/endless.py:300-303 | the stream flushes at most the runs there are; with a truthy limit of 1 or less, exactly one; without a truthy limit, all of them |
| Grouper.RunsFlat | endless/endless.py:296-307 | the runs, concatenated, are the row stream |
| Grouper.RunsUniform | endless/endless.py:297-307 | every run is non-empty and all its rows carry its id; there are runs exactly when there are rows; the last run has the last row's id |
| Grouper.RunsMaximal | endless/endless.py:297-305 | neighbouring runs have different ids |
| Grouper.RunsStep | endless/endless.py:297-307 | one more row either extends the last run or starts a new one |
| Grouper.RunsPrefix | endless/endless.py:297-305 | the runs read before a change of id are a prefix of the stream's runs |
| Grouper.RunsBreak | endless/endless.py:297-305 | a row with a new id adds a run after all the earlier ones, which stay as they were |
| Grouper.RunsGrow | endless/endless.py:305-307 | one more row never lowers the number of runs and keeps all runs but the last |
| Grouper.EmitCount | endless/endless.py:298-311 | one document per run until a run fails; no error exactly when every run became a document; the failing run is the next one |
| Grouper.EmitDocs | endless/endless.py:299 | the k-th document carries the k-th run's id and is that run's rows combined |
| Grouper.EmitErrorPrefix | endless/endless.py:299 | runs after a failing one change nothing |
| Grouper.StreamShape | endless/endless.py:292-311 | consecutive documents have different ids, the k-th carries the k-th run's id, and a stream without error yields exactly the quota of documents |
| Grouper.EmitGrowth | endless/endless.py:298-299 | one more run adds at most one document and keeps the earlier ones; after an error nothing changes; a new document means every earlier run became one |
| Grouper.Construct | endless/endless.py:292-311 | the loop yields `Emit` of the first `Quota` runs; when it flushed every run it read every row; otherwise it stopped early, having read the flushed runs plus exactly one row of the next run, on an error or on exactly `max(limit, 1)` documents |
| Grouper.Flush | endless/endless.py:297-307 | flushing on a change of item id either returns what `Construct` promises, having read one row of the next run, or keeps the loop invariant with that row starting the next run |
| Grouper.FlushStep | endless/endless.py:297-307 | a failing `combine` and the limit-th document each end the stream as `Construct` promises; otherwise the next run starts with row `j` |
| Grouper.Flushing | endless/endless.py:297-299 | at a change of id, the runs read so far are a prefix of the stream's runs, one more than the documents yielded, and their stream is the documents plus the current run combined |
| Grouper.ErrorReturn | endless/endless.py:298-299 | returning on a failing `combine` gives `Emit` of the quota of runs, with runs left unread, and the rows read before the next run are the flushed runs |
| Grouper.LimitReturn | endless/endless.py:300-303 | returning on the limit-th document gives `Emit` of the quota of runs, which is `max(limit, 1)` documents, with runs left unread, and the rows read before the next run are the flushed runs |
| Grouper.BeginRun | endless/endless.py:305-307 | a row with a new id, read after every earlier run was yielded, starts the current run |
| Grouper.ContinueRun | endless/endless.py:307 | a row with the current id joins the current run |
| Grouper.LastFlush | endless/endless.py:309-311 | flushing the current run after the last row gives `Emit` of all runs: its documents, or its error |
| Grouper.NothingLeft | endless/endless.py:309-311 | with no current run after the last row, the documents yielded are `Emit` of all runs |
| Grouper.Finish | endless/endless.py:296-311 | at the end of the rows the quota takes every run; with no current run there were no rows and no documents; otherwise the documents so far are one fewer than the runs, and the stream is those documents plus the current run combined |
| Grouper.StartRun | endless/endless.py:305-307 | a row with a new item id starts a run of its own |
| Grouper.ExtendRun | endless/endless.py:307 | a row with the current item id joins the last run |
| Grouper.PartsAppend | endless/endless.py:307 | the pairs of rows read one after the other are the pairs of each part in turn |
| Grouper.LimitExit | endless/endless.py:300-303 | stopping at the limit leaves exactly `max(limit, 1)` flushed runs, which are the quota |
| Grouper.ErrorExit | endless/endless.py:299 | a run whose `combine` fails ends the whole stream the same way |
| Client.DeleteArgs | endless/endless.py:148-158 | the delete fails exactly when `create_keys` does, and binds the one address a scan of the key reads |
| Client.Head | endless/endless.py:167-169 | the delete that leads the batch when overwriting; `Client.PutBatchOf` states the batch |
| Client.HeadArgs | endless/endless.py:167-169 | the collection id and item id bound to that delete; `Client.PutBatchOf` states them |
| Client.InsertGroup | endless/endless.py:173 | the four arguments of one insert; `Client.InsertArgsLayout` states where they go |
| Client.Inserts | endless/endless.py:171-172 | `n` insert statements |
| Client.InsertArgs | endless/endless.py:171-173 | four arguments per pair |
| Client.InsertArgsLayout | endless/endless.py:173 | insert `k` binds the collection id, the item id, pair `k`'s path and its encoded value |
| Client.PutBatchOf | endless/endless.py:160-175 | the batch fails exactly when `create_keys` does; it has `2*[overwrite] + 4*pairs` arguments and `[overwrite] + pairs` statements, a leading delete binding the address when overwriting, and inserts after it |
| Client.PutBatch | endless/endless.py:160-175 | the appending loop builds exactly that batch |
| Client.AppendInserts | endless/endless.py:171-173 | the loop appends one insert statement and its four arguments per pair, in order |
| Client.InsertArgsAddress | endless/endless.py:173 | every insert binds the document's collection id and item id first |
| Client.InsertsSelected | endless/endless.py:165-173 | a select that returns the row address `(c, i)` returns the address every insert for `(c, i)` binds |
| Client.BatchInserts | endless/endless.py:167-173 | after the delete's two arguments when overwriting, the batch arguments are exactly the inserts' |
| Client.InsertArgsStep | endless/endless.py:173 | one more pair appends its four arguments |
| Client.ReadBack | endless/endless.py:196 | one `(key, loads(value))` pair per four insert arguments |
| Client.ReadBackInserts | endless/endless.py:173 | reading back the inserts with a `loads` that undoes `dumps` gives the pairs |
| Client.PutInsertsTarget | endless/endless.py:165-173 | every insert of a `put` writes a row that a scan of the same key reads |
| Client.PutThenGet | endless/endless.py:160-198 | combining the rows a `put` writes, read back in batch order, gives the cleaned document entry for entry |
| Client.PutThenGetAnyOrder | endless/endless.py:186-197 | combining the rows a `put` writes, read back in any order (such as sorted by `key`), succeeds and gives a document equal to the cleaned one as Python compares dicts |
| Tools.InsertByName | endless/tools.py:60 | inserting into a name-sorted list keeps it sorted and adds exactly that argument |
| Tools.InsertFront | endless/tools.py:60 | an argument whose name is not above the first of a sorted list can go in front, and the list stays sorted |
| Tools.InsertBehind | endless/tools.py:60 | the first of a sorted list stays in front when an argument with a greater name is inserted into the rest |
| Tools.LessTotalCases | endless/tools.py:60 | if `b` does not sort below `a` but sorts below `c`, then `c` does not sort below `a` |
| Tools.SortByName | endless/tools.py:60 | `sorted(kwargs.items(), key=…)` is sorted by name and is a permutation of the arguments |
| Tools.Tags | endless/tools.py:60 | one `k=v` tag per keyword argument |
| Tools.MakeKeyStr | endless/tools.py:54-62 | the key is the name, then every positional argument, then every `k=v` in name order, each preceded by `::`; with no arguments it is the name |
| Tools.KeyStrParts | endless/tools.py:55-62 | the name, then `'::' + '::'.join(args)` when there are arguments, then the same for the tags, is the name followed by every part preceded by `::` |
| Tools.PrefixEach | endless/tools.py:58-60 | every part preceded by `::`; `Tools.JoinIsPrefixEach` states that it is what the `'::'.join` builds |
| Tools.JoinIsPrefixEach | endless/tools.py:58-60 | `'::' + '::'.join(parts)` puts `::` before every part |
| Tools.SortKeepsDistinct | endless/tools.py:60 | sorting keeps the names distinct |
| Tools.InsertKeepsDistinct | endless/tools.py:60 | inserting an argument with a new name keeps the names distinct |
| Tools.ConsKeepsDistinct | endless/tools.py:60 | an argument with a new name can go in front |
| Tools.SortedUnique | endless/tools.py:60 | two name-sorted orderings of the same arguments, with distinct names, are equal |
| Tools.SameFirst | endless/tools.py:60 | two such orderings start with the same argument |
| Tools.TailsSameMultiset | endless/tools.py:60 | dropping the same first argument keeps the two orderings permutations of each other |
| Tools.KeyStrIgnoresKwargOrder | endless/tools.py:59-60 | the key does not depend on the order in which keyword arguments were passed |
| Tools.Memo.constructor | endless/tools.py:66 | the cache starts empty |
| Tools.Memo.Decorate | endless/tools.py:66 | applying `memoize` resets the shared results to empty |
| Tools.Memo.Call | endless/tools.py:68-76 | a cached key returns the cached value and calls nothing; a new key calls the function once, stores its value under the key and changes no other entry |

## Left out

- Cassandra access is not modelled: `Cluster`, `session.execute` and `execute_async`, `Client.__init__`, and `connect`. The rows a scan returns are an input sequence instead.
- `AsyncScanFormatter` and `AsyncDeepScanFormatter` are not modelled. They only wait on the driver's future.
- The `async` flag of `put` and `delete` only picks how the statement is sent, and is not modelled.
- `Values.Clean`: the `datetime`/`date` branch (`to_utc`, pytz time zones) and the `Decimal` to `float` branch are not modelled. Time zones and floating point are outside the model. `Float` values are held as reals and pass unchanged.
- Values in the `Other` case are known only by their `str()` text. How Python renders a value as text is not modelled. The same holds for the arguments of `_make_key_str`, which are taken as their `str()` text.
- JSON `dumps` and `loads` are function parameters, not an encoding. `Client.PutThenGet` assumes that `loads` undoes `dumps` on clean values.
- SQL text is not modelled. The statement templates and the `' and '.join` of the where clause become lists of conditions and arguments.
- Dicts are association lists in iteration order. `Rebuild.RoundTrip` and `Client.PutThenGet` state equality entry for entry, and only for rows in `split` order. For rows in any other order, such as sorted by `key`, `Reorder.RoundTripAnyOrder` and `Client.PutThenGetAnyOrder` state equality up to entry order (`Values.SameDoc`); the entry order `combine` then builds is not stated.
- Dict keys are strings. A key that is not a string is not modelled: Python's `'/'.join` at endless/endless.py:119 raises `TypeError` for a truthy one and silently drops a falsy one such as `0`.
- `Rebuild.Combine` and `Grouper.Construct` work on values. The in-place sharing of nested dicts by `setdefault` is expressed as a functional update of the path, and aliasing is not modelled.
- `construct` is a generator. `Grouper.Construct` returns the documents yielded before it stops, plus the error that ends the stream if `combine` fails. It does not model a consumer that stops iterating early.
- Errors are values. The `assert` in `create_keys`, and the exceptions `combine` raises, become `Fail` results. Their Python exception types are not modelled.
- `Tools.Memo.Call`: the wrapped function is a pure function parameter. Its side effects, and a call that raises, are not modelled. The `ghost` field `calls` counts the calls that reach it. `update_wrapper` and `wraps` only copy metadata and are not modelled.
- `crossdomain`, the HTTP server, `endless/collections.py`, and the deployment scripts are not part of this model.
