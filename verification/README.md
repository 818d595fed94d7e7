# Neuraxle AutoML metadata repository and controller loop, in Dafny

This project models three parts of Neuraxle's AutoML hyperparameter machinery and proves properties of them.

1. **The metadata tree and the in-memory repository** (`vanilla.py`).
   - `ScopedLocation` has six optional coordinates: project, client, round, trial, split and metric. `as_list` reads them as a gap-free prefix.
   - The node hierarchy runs Root → Project → Client → Round → Trial → TrialSplit → MetricResults. Root, Project and TrialSplit own an ordered map of children. Client, Round and Trial own an index list.
   - Every node has `store`, `shallow`, keys, values and the recursive lookup by location.
   - `VanillaHyperparamsRepository` keeps one Root tree. Its `load` answers a missing address with a stub. Its `save` validates the scope, optionally reattaches the stored children, and stores the node into its parent.
2. **The on-disk repository's addressing, load and save** (`json_repo.py`).
   - A scope becomes a folder of `"_"`-prefixed segments. The folder holds `metadata.json` and `log.txt`.
   - Child keys are read back from the folder listing.
   - A missing record leads to a stub. An unparseable record is fatal.
   - The disk is a map from paths (sequences of segments) to records, plus a listing per folder.
3. **The controller loop** (`auto_ml.py`).
   - `loop` and `run` are modelled as the sequence of calls they make on the round and trial aggregates.
   - Also modelled: how `_attempt_trial` classifies an error, the `n_jobs` normalisation, the failure description, and the refit-flag guards of the `AutoML` step.

Modules, one per file:

| Module | Contents |
|---|---|
| `Errors` | `Result`, `Outcome`, `Error` |
| `Kinds` | coordinate values and the type tables |
| `Numerals` | Python `str`/`int` of integers |
| `Lexical` | Python string order and `sorted` |
| `Nodes` | node variants, `store`, `shallow`, the invariant, well-formed trees |
| `Locations` | `ScopedLocation` |
| `Tree` | lookup, and replacing the node a lookup finds |
| `Vanilla` | the in-memory repository |
| `OnDisk` | the on-disk repository |
| `ListingOrder` | child keys do not depend on the order of a folder's listing |
| `Controller` | the controller loop |
| `AutoMLStep` | the `AutoML` step's fit and transform |

Python mutates nodes in place and copies them with `deepcopy`. Here nodes are immutable values, so every copy is deep. A mutation inside the tree is `Tree.ReplaceAt`. An operation that can raise after it has already changed something returns an `Outcome`, which carries the state left behind together with the error.

Where the code behaves differently from what its names and comments suggest, the model follows the code:

- **Numeric ids are sorted as strings.** Child keys are sorted as strings before a list node converts them with `int`, so numeric ids come out in lexical order (10 before 2), not in numeric order. The source's own comment at `json_repo.py:151` notes that the loaded keys are simply sorted and do not respect the node's insertion order.
- **A failed map store keeps its child.** A map node's `store` inserts before it checks its invariant, so a rejected child stays inserted.
- **Locations can have gaps.** A `ScopedLocation` can hold a gap. Indexing by node type reads the raw field, and `pop` scans the raw fields.
- **`save` rejects a scope without the node's coordinate.** The length check of `save` for a scope lacking the node's coordinate rejects every non-root node.
- **`load` can fail.** The in-memory `load` raises `TypeError` when it descends into a placeholder. It raises `ValueError` when a map node on the way misses the key and holds a key that is not a string, because the `KeyError` message is built from `shallow()`, which re-checks the invariant. At the empty scope it returns the root. The on-disk `load` of the empty scope raises `IndexError` when the root record is missing, since the stub has no id to be built from.
- **A missing trial or split loads as number 0.** Both `load`s answer a missing address with `new_dataclass_from_id()`, which passes the id positionally. For Trial and TrialSplit the first field is `hyperparams`, so the stub is numbered 0 (see Findings).
- **A shallow save on an out-of-order scope raises `TypeError`.** `save` calls `with_dc`, whose `__setitem__` fails while building its own `ValueError` message (see Findings).

## Model

| member | source | states |
|---|---|---|
| `Kinds.Depth` | neuraxle/metaopt/data/vanilla.py:495-503 | a node type's depth is its position in the sublocation table, Root first |
| `Kinds.IdIndex` | neuraxle/metaopt/data/vanilla.py:486-493 | Root has no id coordinate; every other type's coordinate sits one position before its depth |
| `Kinds.IdKindAt` | neuraxle/metaopt/data/vanilla.py:486-493 | entry i of the id table is a non-root type at depth i + 1; entry 3 is Trial and entry 4 is TrialSplit |
| `Kinds.SubKind` | neuraxle/metaopt/data/vanilla.py:505-513 | only MetricResults has no child type; any other type's children are one level deeper |
| `Numerals.IntToString` | neuraxle/metaopt/data/vanilla.py:197-198 | `str` of an integer is non-empty digits, with a leading `-` exactly for a negative number |
| `Numerals.ParseInt` | neuraxle/metaopt/data/json_repo.py:155-156 | `int` of a string succeeds exactly on an optional sign followed by digits, else `ValueError` naming the text |
| `Numerals.ParseIntOfIntToString` | neuraxle/metaopt/data/json_repo.py:155-156 | a list key written as a folder name reads back as itself |
| `Numerals.IntToStringInjective` | neuraxle/metaopt/data/json_repo.py:65-68 | distinct integer coordinates give distinct folder segments |
| `Lexical.Insert` | neuraxle/metaopt/data/json_repo.py:152-154 | inserting into a sorted list adds exactly that name and keeps the list sorted |
| `Lexical.Sort` | neuraxle/metaopt/data/json_repo.py:152-154 | `sorted` returns a permutation of its input in Python string order |
| `Lexical.SortedUnique` | neuraxle/metaopt/data/json_repo.py:152-154 | two sorted permutations of the same names are identical |
| `Lexical.SortIgnoresOrder` | neuraxle/metaopt/data/json_repo.py:152-154 | `sorted` gives the same list for any reordering of the names it is given |
| `ListingOrder.StripDelimitedPermutes` | neuraxle/metaopt/data/json_repo.py:152-154 | keeping the `"_"`-prefixed names of a listing and stripping the prefix gives the same names, each as often, for any reordering of the listing |
| `ListingOrder.ChildKeysIgnoreListingOrder` | neuraxle/metaopt/data/json_repo.py:150-156 | any reordering of the folder's listing gives the same child keys, or the same `ValueError` when a list node's name is not an integer |
| `Locations.SetField` | neuraxle/metaopt/data/vanilla.py:151-152 | `setattr` of one coordinate changes that coordinate and no other |
| `Locations.FieldsDetermineLocation` | neuraxle/metaopt/data/vanilla.py:65-75 | a location is nothing but its six fields |
| `Locations.PrefixFrom` | neuraxle/metaopt/data/vanilla.py:190-202 | from position i: each listed value is the set field at its position, and the field after the last one is unset |
| `Locations.AsList` | neuraxle/metaopt/data/vanilla.py:182-202 | at most six coordinates in project-to-metric order, each the field at its position, ending at the first unset field |
| `Locations.LenCountsLeadingCoordinates` | neuraxle/metaopt/data/vanilla.py:176-180 | `len(loc)` is the number of coordinates set before the first unset one, at most six |
| `Locations.AsStrings` | neuraxle/metaopt/data/vanilla.py:182-202 | the stringified list has one `str` per coordinate of the prefix, in order |
| `Locations.PrefixFromFields` | neuraxle/metaopt/data/vanilla.py:190-202 | any values set in consecutive fields, followed by an unset one, are read back exactly |
| `Locations.FromList` | neuraxle/metaopt/data/vanilla.py:65-75 | more than six positional values raise `TypeError`; otherwise the location lists exactly those values and has no gap |
| `Locations.FromListAsList` | neuraxle/metaopt/data/vanilla.py:118-122 | rebuilding a location from its list always succeeds, and gives back the location exactly when it has no gap |
| `Locations.Copy` | neuraxle/metaopt/data/vanilla.py:118-122 | a copy has the same list and no gap |
| `Locations.WithId` | neuraxle/metaopt/data/vanilla.py:134-138 | below six coordinates the list grows by exactly the given id; at six it raises `TypeError` |
| `Locations.Popped` | neuraxle/metaopt/data/vanilla.py:170-174 | the list without its last coordinate; the empty location stays empty |
| `Locations.PoppedWithId` | neuraxle/metaopt/data/vanilla.py:170-174 | popping what `with_id` appended gives back the location's copy |
| `Locations.Peek` | neuraxle/metaopt/data/vanilla.py:154-158 | `IndexError` exactly on the empty location, else the last coordinate of the list |
| `Locations.LastSetBelow` | neuraxle/metaopt/data/vanilla.py:164-168 | the reversed scan finds the last set field, with every later field unset, or reports that none is set |
| `Locations.Pop` | neuraxle/metaopt/data/vanilla.py:160-168 | returns `None` exactly when no field is set, leaving the location as it was; otherwise clears the last set field, changes no other field, and returns that field's value |
| `Locations.PopIsPeekAndPopped` | neuraxle/metaopt/data/vanilla.py:154-174 | on a location without gaps, `pop` returns what `peek` shows and leaves what `popped` returns |
| `Locations.SetItem` | neuraxle/metaopt/data/vanilla.py:140-152 | Root is refused with `ValueError`; a type other than the next one in order is refused with `ValueError`; the next type sets its coordinate, and on a location without gaps extends the list by exactly the value |
| `Locations.SetItemAsWritten` | neuraxle/metaopt/data/vanilla.py:140-152 | as written, the out-of-order case raises `TypeError`; every other case agrees with `SetItem` |
| `Locations.SetItemOutOfOrderRaisesTypeError` | neuraxle/metaopt/data/vanilla.py:147-150 | setting a client on an empty location raises `TypeError` as written where `ValueError` is meant |
| `Locations.WithDc` | neuraxle/metaopt/data/vanilla.py:124-132 | a Root node gives the empty location; any other node succeeds exactly when its type is the next in order, and then appends the node's id |
| `Locations.WithDcAsWritten` | neuraxle/metaopt/data/vanilla.py:124-152 | a non-root node whose type is not the next to be set raises `TypeError`; Root and the next type agree with `WithDc` |
| `Locations.SliceEnd` | neuraxle/metaopt/data/vanilla.py:98-100 | Python's clamping of a slice stop to the list length, counting a negative stop from the end |
| `Locations.SliceTo` | neuraxle/metaopt/data/vanilla.py:88-100 | `loc[:Type]` keeps the coordinates up to that type's own, clamped to the list; Root gives the empty location |
| `Locations.Index` | neuraxle/metaopt/data/vanilla.py:78-116 | every branch of `loc[key]`: `None`, slices and their `ValueError`s, Root, node types, positive and negative integers with their `IndexError`s, and invalid keys |
| `Locations.IndexByKindIsIndexByPosition` | neuraxle/metaopt/data/vanilla.py:105-114 | indexing by integer i reads the same coordinate as indexing by the i-th type of the id table |
| `Locations.NewDataclassFromId` | neuraxle/metaopt/data/vanilla.py:204-211 | the empty location raises `IndexError`; otherwise a node at the location's depth whose id is its last coordinate |
| `Locations.Stub` | neuraxle/metaopt/data/vanilla.py:415-483 | a node built from its id alone has the requested type and that id |
| `Locations.StubWellFormed` | neuraxle/metaopt/data/vanilla.py:415-483 | every stub is a well-formed tree |
| `Locations.NewDataclassFromIdAsWritten` | neuraxle/metaopt/data/vanilla.py:204-211 | as written, a Trial or TrialSplit stub gets number 0, and every other depth agrees with `NewDataclassFromId` |
| `Locations.NewDataclassFromIdReaddresses` | neuraxle/metaopt/data/vanilla.py:204-211 | the corrected stub, re-added to the parent location, addresses the location it was built from |
| `Locations.NewDataclassFromIdAsWrittenMisaddresses` | neuraxle/metaopt/data/vanilla.py:204-211 | as written, the stub for trial 5 of round 0 is trial 0, and re-adding it to round 0 does not address trial 5 |
| `Locations.AsWrittenMisaddressesTrial` | neuraxle/metaopt/data/vanilla.py:373-383 | for any trial location other than trial 0, the stub as written is trial 0, placed at a different address |
| `Nodes.GetId` | neuraxle/metaopt/data/vanilla.py:408-409 | only Root has no id |
| `Kinds.IsMapKind` | neuraxle/metaopt/data/json_repo.py:155 | the node classes that are not `DataclassHasListMixin`: Root, Project and TrialSplit, whose keys stay strings |
| `Nodes.SizeCountsChildren` | neuraxle/metaopt/data/vanilla.py:265-266 | `len(dc)` is the number of children: a root's projects, a project's clients, a client's rounds, a round's trials, a trial's splits, a split's metric results, a metric's validation values |
| `Nodes.GetSublocation` | neuraxle/metaopt/data/vanilla.py:246-247 | the children are an ordered map exactly for Root, Project and TrialSplit |
| `Nodes.WithSublocation` | neuraxle/metaopt/data/vanilla.py:249-250 | replacing the children keeps the node's type and id and installs exactly the given children |
| `Nodes.Put` | neuraxle/metaopt/data/vanilla.py:316-317 | `OrderedDict` assignment: an existing key keeps its place, a new key is appended last, the key then holds the value, other entries are unchanged, and distinct keys stay distinct |
| `Nodes.SublocationKeys` | neuraxle/metaopt/data/vanilla.py:310-348 | a map node's keys in insertion order; a list node's indices 0 to length - 1 |
| `Nodes.SublocationValues` | neuraxle/metaopt/data/vanilla.py:310-345 | one value per key |
| `Nodes.NextIndex` | neuraxle/metaopt/data/vanilla.py:368-369 | the next index of a list node is its number of values |
| `Nodes.InvariantViolation` | neuraxle/metaopt/data/vanilla.py:288-300 | a list node always passes; a map node fails first on a non-string key, then on a value that is neither a placeholder nor a child of the next type |
| `Nodes.SetSublocation` | neuraxle/metaopt/data/vanilla.py:306-342 | a map node refuses a list and a list node refuses a map; otherwise the children are installed, and the call succeeds exactly when the invariant holds afterwards |
| `Nodes.Store` | neuraxle/metaopt/data/vanilla.py:316-359 | map: key `get_id()` holds the child, an existing key keeps its place and a new one goes last, and the result is the id exactly when the invariant passes afterwards. List: id equal to the length appends; a smaller id overwrites in place (a negative id counts from the end); a larger id raises `ValueError` and leaves the node unchanged |
| `Nodes.StoreFiles` | neuraxle/metaopt/data/vanilla.py:316-359 | a successful store with a non-negative id leaves the child under its own id |
| `Nodes.Shallow` | neuraxle/metaopt/data/vanilla.py:321-366 | the same own fields and keys (or list length), with every value a placeholder; a map with a non-string key fails the re-checked invariant |
| `Nodes.ShallowIdempotent` | neuraxle/metaopt/data/vanilla.py:321-326 | shallowing a shallow node changes nothing |
| `Nodes.DefaultRootWellFormed` | neuraxle/metaopt/data/vanilla.py:395-419 | `RootDataclass()` with its default project and client is a well-formed tree |
| `Nodes.MapFitPassesInvariant` | neuraxle/metaopt/data/vanilla.py:288-300 | a map node with string keys over fitting children passes the invariant |
| `Nodes.StoreMapWellFormed` | neuraxle/metaopt/data/vanilla.py:316-319 | storing a well-formed child of the next type under a string id keeps a well-formed map node well formed and returns the id |
| `Nodes.StoreListWellFormed` | neuraxle/metaopt/data/vanilla.py:350-359 | storing a well-formed child of the next type at an index no larger than the length keeps a list node well formed and returns the id |
| `Nodes.StorePreservesWellFormed` | neuraxle/metaopt/data/vanilla.py:316-359 | the two cases together: a fitting store keeps the parent well formed |
| `Tree.Lookup` | neuraxle/metaopt/data/vanilla.py:252-263 | `node[loc]` is the node itself at a leaf type or when the next coordinate is unset; when that coordinate is not a key it raises `KeyError`, or `ValueError` when the node is a map holding a non-string key; the only other failure is `TypeError` |
| `Tree.LookupDescends` | neuraxle/metaopt/data/vanilla.py:256-263 | when the next coordinate names a stored child, the lookup continues in that child; when it names a placeholder, the lookup raises `TypeError` |
| `Tree.LookupStopsAtPrefixEnd` | neuraxle/metaopt/data/vanilla.py:256-258 | a lookup from a node as deep as the location's list returns that node |
| `Tree.LookupAddresses` | neuraxle/metaopt/data/vanilla.py:252-263 | in a well-formed tree a successful lookup descends one level per coordinate, ending at the location's depth on the node whose id is the last coordinate |
| `Tree.LookupWellFormed` | neuraxle/metaopt/data/vanilla.py:252-263 | whatever a lookup returns from a well-formed tree is well formed |
| `Tree.ReplaceAt` | neuraxle/metaopt/data/vanilla.py:739-742 | mutating the node a lookup returned: the outer node keeps its own fields and keys unless it is the node found, and looking up the same location then finds the replacement |
| `Tree.ReplaceAtPreservesWellFormed` | neuraxle/metaopt/data/vanilla.py:739-742 | replacing a node by a well-formed one of the same type and id keeps the tree well formed |
| `Tree.LookupThroughReplaced` | neuraxle/metaopt/data/vanilla.py:739-742 | a lookup of any location that agrees with the replaced node's location on its coordinates continues in the replacement |
| `Vanilla.Init` | neuraxle/metaopt/data/vanilla.py:683-694 | the cache folder gains the class name, and the root is a valid tree in which the default project holds the default client |
| `Vanilla.Load` | neuraxle/metaopt/data/vanilla.py:703-711 | the node at the scope, shallowed unless deep; a `KeyError` gives the stub `new_dataclass_from_id()` builds as written; any other error propagates; the only errors are `TypeError`, `IndexError` and the non-string-key `ValueError`, and from a Root tree never `IndexError` |
| `Vanilla.LoadAddresses` | neuraxle/metaopt/data/vanilla.py:703-711 | a successful load from a valid repository sits at the scope's depth; a found node, or a stub above trial depth, carries the last coordinate as id, while a missing trial or split loads as number 0 |
| `Vanilla.MissingTrialLoadsTrialZero` | neuraxle/metaopt/data/vanilla.py:703-711 | loading trial 5 of the default client's round 0 from a fresh repository gives trial 0 |
| `Vanilla.LoadWellFormed` | neuraxle/metaopt/data/vanilla.py:703-711 | a deep load from a valid repository returns a well-formed tree |
| `Vanilla.Reattached` | neuraxle/metaopt/data/vanilla.py:731-737 | a deep save stores the node as given; any reattached node keeps the saved node's own fields; a shallow Root save takes the current root's children; a shallow save whose parent location is not one level above the node raises `TypeError` from `with_dc` as written |
| `Vanilla.StoreAt` | neuraxle/metaopt/data/vanilla.py:739-742 | a failed parent lookup raises and leaves the repository unchanged; a raise that changed the repository is a map node's invariant `ValueError` |
| `Vanilla.Save` | neuraxle/metaopt/data/vanilla.py:713-744 | a set coordinate that differs from the node's id raises `ValueError` with the repository unchanged; a deep Root save replaces the tree; a raise that changed the repository is a map invariant `ValueError` |
| `Vanilla.ParentScope` | neuraxle/metaopt/data/vanilla.py:716-724 | the location `save` stores into is a gap-free leading part of the scope, above the node's level, and empty for Root |
| `Vanilla.UnsetCoordinateRejected` | neuraxle/metaopt/data/vanilla.py:726-729 | a non-root node whose coordinate is unset in the scope is always refused by the length check, the repository unchanged |
| `Vanilla.ParentScopeShape` | neuraxle/metaopt/data/vanilla.py:716-724 | on a scope that reaches the node's level, slicing then popping yields the parent location, and `with_dc` of the node rebuilds the sliced scope |
| `Vanilla.GappedParentDropsLast` | neuraxle/metaopt/data/vanilla.py:716-724 | on a scope with a gap before the node's own coordinate, the parent location is the prefix minus its last coordinate, a level above the real parent |
| `Vanilla.GappedScopeMisfiles` | neuraxle/metaopt/data/vanilla.py:713-744 | a split saved at (project, client, round 0, no trial, split 0) is accepted and lands as round 0 of the client |
| `Vanilla.GappedShallowSaveRaisesTypeError` | neuraxle/metaopt/data/vanilla.py:713-737 | a shallow save of trial 5 at (project, no client, round 0, trial 5) raises `TypeError` and leaves the repository unchanged |
| `Vanilla.DeepSaveThenLoad` | neuraxle/metaopt/data/vanilla.py:713-744 | after a successful deep save, a deep load at the node's address returns the node |
| `Vanilla.ShallowSaveReattaches` | neuraxle/metaopt/data/vanilla.py:731-742 | after a successful shallow save, the node at the address has the saved node's own fields over the children a deep load found there before |
| `Vanilla.StoreAtPreservesValid` | neuraxle/metaopt/data/vanilla.py:739-742 | storing a well-formed node of the parent's child type with a non-negative id keeps the tree valid |
| `Vanilla.SavePreservesValid` | neuraxle/metaopt/data/vanilla.py:713-744 | a successful save of a node that its scope reaches, with a non-negative id and well formed when deep, keeps the repository a valid Root tree |
| `Vanilla.FromRoot` | neuraxle/metaopt/data/vanilla.py:696-701 | a fresh repository whose tree is exactly the given root |
| `Vanilla.ScopedPath` | neuraxle/metaopt/data/vanilla.py:750-752 | the cache folder followed by `str` of each coordinate, in order |
| `Vanilla.LoggerPath` | neuraxle/metaopt/data/vanilla.py:746-748 | `log.txt` directly below the scoped path of the scope |
| `Vanilla.LoggerPathIsChildScopedPath` | neuraxle/metaopt/data/vanilla.py:746-752 | below six coordinates, the log file is the scoped path of the child location whose id is `"log.txt"`: without a delimiter the two cannot be told apart |
| `Vanilla.ScopedPathWithId` | neuraxle/metaopt/data/vanilla.py:750-752 | the scoped path of `with_id(x)` extends the scope's path by `str(x)` |
| `OnDisk.Folder` | neuraxle/metaopt/data/json_repo.py:65-68 | the cache folder, then `"_" + str(c)` for each coordinate of the list, in order |
| `OnDisk.RecordPath` | neuraxle/metaopt/data/json_repo.py:175-181 | the record is a file directly inside the scope's folder, named `metadata.json`, which never reads back as a key |
| `OnDisk.LoggerPath` | neuraxle/metaopt/data/json_repo.py:70-72 | the log is a file directly inside the scope's folder, named `log.txt`, which never reads back as a key |
| `OnDisk.FolderWithId` | neuraxle/metaopt/data/json_repo.py:65-68 | the folder of `with_id(x)` extends the scope's folder by exactly the segment `"_" + str(x)` |
| `OnDisk.FolderDeterminedByStrings` | neuraxle/metaopt/data/json_repo.py:65-68 | two scopes share a folder exactly when their stringified lists agree |
| `OnDisk.FilesAreNotFolders` | neuraxle/metaopt/data/json_repo.py:175-181 | a record or log path is never a scope folder; a scope's record and log file are distinct and inside its folder |
| `OnDisk.StripDelimited` | neuraxle/metaopt/data/json_repo.py:152-154 | every key comes from a listed name starting with `"_"`, and every such name gives its key |
| `OnDisk.UndelimitedGiveNoKeys` | neuraxle/metaopt/data/json_repo.py:152-154 | a name without the delimiter contributes nothing to the keys |
| `OnDisk.ReservedNamesUndelimited` | neuraxle/metaopt/data/json_repo.py:153 | neither `metadata.json` nor `log.txt` starts with the delimiter |
| `OnDisk.ParseKeys` | neuraxle/metaopt/data/json_repo.py:155-156 | map nodes keep the names as string keys; list nodes convert each with `int`, failing with `ValueError` exactly when some name is not an integer |
| `OnDisk.Listing` | neuraxle/metaopt/data/json_repo.py:150 | `os.listdir` of a folder: its entries in listing order |
| `OnDisk.ChildKeys` | neuraxle/metaopt/data/json_repo.py:148-156 | one key per delimited listing entry, each from a listed name |
| `OnDisk.MapKeysSorted` | neuraxle/metaopt/data/json_repo.py:151-154 | map keys are exactly the stripped names, in string order |
| `OnDisk.ListKeysLexical` | neuraxle/metaopt/data/json_repo.py:151-156 | folders `_2` and `_10` give list keys 10 then 2 |
| `OnDisk.LoadJsonFile` | neuraxle/metaopt/data/json_repo.py:133-146 | a missing file raises `KeyError`; a malformed one raises `ValueError` with its text, its path and its folder's listing; a record loads as written |
| `OnDisk.StoreLoaded` | neuraxle/metaopt/data/json_repo.py:128-130 | storing a loaded child is the node's `store`, its error propagated |
| `OnDisk.LoadSublocationKeys` | neuraxle/metaopt/data/json_repo.py:148-162 | the keys read from the folder listing are handed to `set_sublocation_keys`; a list node's non-integer name raises `ValueError` first; a map node's keys always parse |
| `OnDisk.LoadChildren` | neuraxle/metaopt/data/json_repo.py:127-130 | the loop ends with the node as it stands; at six coordinates `with_id` raises `TypeError`; a completed loop keeps the node's own fields |
| `OnDisk.LoadDc` | neuraxle/metaopt/data/json_repo.py:119-131 | a failed record read propagates; a record without sub-dataclasses is returned as read |
| `OnDisk.LoadChildrenInKeyOrder` | neuraxle/metaopt/data/json_repo.py:127-130 | a deep load succeeds exactly when each child loads from its own scope and storing them in key order succeeds, and its result is that store |
| `OnDisk.Load` | neuraxle/metaopt/data/json_repo.py:89-106 | a `KeyError` from `_load_dc` gives the stub `new_dataclass_from_id()` builds as written; every other result is returned unchanged |
| `OnDisk.MissingRecordStubs` | neuraxle/metaopt/data/json_repo.py:99-106 | a missing record answers the load with the as-written stub: `IndexError` exactly for the empty scope, else a node at the scope's depth whose id is the last coordinate, except that a trial or split stub is numbered 0 |
| `OnDisk.MalformedRecordFails` | neuraxle/metaopt/data/json_repo.py:137-146 | a malformed record fails the load with `ValueError` naming its text, path and folder listing; `load` does not catch it |
| `OnDisk.LeafRecordLoads` | neuraxle/metaopt/data/json_repo.py:119-131 | a record without sub-dataclasses loads as it was written |
| `OnDisk.MissingChildStubsParent` | neuraxle/metaopt/data/json_repo.py:99-131 | a missing child record met during a deep load makes `load` return the as-written stub for the parent scope |
| `OnDisk.ChildFolder` | neuraxle/metaopt/data/json_repo.py:183-188 | a child placed below its parent's scope lives one delimited segment below the parent's folder |
| `OnDisk.PatchScope` | neuraxle/metaopt/data/json_repo.py:183-188 | Root keeps the scope; any other node's coordinate is set to its id, and placed below a parent scope one level up the scope gains exactly that id |
| `OnDisk.SaveDc` | neuraxle/metaopt/data/json_repo.py:164-173 | a shallow save, or a save of a node without sub-dataclasses, always completes; the only error is `AttributeError` |
| `OnDisk.SaveChildren` | neuraxle/metaopt/data/json_repo.py:171-173 | the loop over the child values raises nothing but `AttributeError` |
| `OnDisk.SaveDcStaysInFolder` | neuraxle/metaopt/data/json_repo.py:164-173 | a save, complete or raising, changes no file outside the folder of the scope the node is placed at |
| `OnDisk.SaveChildrenKeepRecord` | neuraxle/metaopt/data/json_repo.py:171-173 | saving the children leaves the parent's own record as it was |
| `OnDisk.MakeDirs` | neuraxle/metaopt/data/json_repo.py:167 | `os.makedirs` creates folders only and leaves every file as it was |
| `OnDisk.MakeDirsListsAncestors` | neuraxle/metaopt/data/json_repo.py:167 | after `os.makedirs(folder)` each ancestor of the folder lists the next segment of its path, and nothing listed before is lost |
| `OnDisk.Write` | neuraxle/metaopt/data/json_repo.py:168-169 | writing a file stores the content at that path and changes no other file |
| `OnDisk.WriteLists` | neuraxle/metaopt/data/json_repo.py:168-169 | a written file is listed in its folder, and nothing listed before is lost |
| `OnDisk.SaveWritesRecord` | neuraxle/metaopt/data/json_repo.py:164-173 | a completed save leaves the node's emptied record at its folder, and reading it gives that record back |
| `OnDisk.SaveDeepWritesChildren` | neuraxle/metaopt/data/json_repo.py:164-173 | after a completed deep save, every child value is a node, and each child's emptied record sits at the scope it is placed at below the node's own |
| `OnDisk.PlaceholderTruncatesRecord` | neuraxle/metaopt/data/json_repo.py:164-173 | a deep save of a node whose first child is a placeholder raises `AttributeError` after truncating the node's own record |
| `OnDisk.IsLockingRequired` | neuraxle/metaopt/data/json_repo.py:190-191 | the on-disk repository always asks for locking |
| `OnDisk.Init` | neuraxle/metaopt/data/json_repo.py:84-87 | without a cache folder construction raises `TypeError`; otherwise the repository keeps that folder |
| `OnDisk.InitWritesRootRecord` | neuraxle/metaopt/data/json_repo.py:84-87 | a constructed repository holds the emptied root record directly in its cache folder |
| `Controller.Iteration` | neuraxle/metaopt/auto_ml.py:232-239 | one iteration opens trial `k`, marks it right after when flagged, trains it and closes it: three events, four when flagged |
| `Controller.LoopTrace` | neuraxle/metaopt/auto_ml.py:232-239 | three events per trial, four when trials continue on error; the first opens trial 0 and the last closes trial `n - 1` |
| `Controller.LoopOpensInOrder` | neuraxle/metaopt/auto_ml.py:224-239 | `loop` opens trial scopes 0 to `n_trials - 1`, in that order |
| `Controller.LoopCount` | neuraxle/metaopt/auto_ml.py:232-239 | each event of `loop` occurs once per trial below `n_trials`, the mark only when flagged |
| `Controller.LoopOpensEachTrialOnce` | neuraxle/metaopt/auto_ml.py:232-239 | each of the `n_trials` trials is opened, trained and closed exactly once, and no other trial is |
| `Controller.LoopMarksTrialsWhenFlagged` | neuraxle/metaopt/auto_ml.py:236-237 | `continue_loop_on_error` is applied to each trial exactly when the flag is set |
| `Controller.Run` | neuraxle/metaopt/auto_ml.py:198-222 | opens the round, marks it when flagged, runs the loop over `range(n_trials)`, closes the round and returns the round id |
| `Controller.RunTrainsEveryTrial` | neuraxle/metaopt/auto_ml.py:208-222 | a run trains each trial once, marks the round once when flagged, and begins and ends with the round |
| `Controller.AttemptTrial` | neuraxle/metaopt/auto_ml.py:331-373 | success completes; an error of a type to raise is marked failed and raised again; any other `Exception` is swallowed; a non-`Exception` passes through; the status update and collection come last on every path |
| `Controller.FinalStatusOnce` | neuraxle/metaopt/auto_ml.py:369-373 | the final status update runs exactly once on every exit path |
| `Controller.TrialSplitDescription` | neuraxle/metaopt/auto_ml.py:496-510 | a trial and split within their ranges show a 1-based position no larger than the totals, with the hyperparameters |
| `Controller.DescriptionText` | neuraxle/metaopt/auto_ml.py:503-509 | the text `'{}/{} split {}/{}\nhyperparams: {}'` makes of a description ends with the hyperparameters' JSON |
| `Controller.DescriptionTextInjective` | neuraxle/metaopt/auto_ml.py:503-509 | the description text determines the trial, the trial count, the split, the split count and the hyperparameters |
| `Controller.DescriptionTextIdentifiesSplit` | neuraxle/metaopt/auto_ml.py:496-510 | two logged failure texts are equal only for the same trial of the same count, the same split of the same count, and the same hyperparameters |
| `Controller.SwallowedFailureDescribed` | neuraxle/metaopt/auto_ml.py:358-368 | a swallowed failure is logged with the 1-based trial number and split 1 when no split returned, else the last split's number plus 2, then the traceback |
| `Controller.IsInstanceOfAny` | neuraxle/metaopt/auto_ml.py:352 | `isinstance(error, error_types_to_raise)`: one of the listed classes is the error's class or one of its bases |
| `Controller.AttemptAll` | neuraxle/metaopt/auto_ml.py:279-282 | one attempt per trial of `range(n_trial)`: the trials attempted stay within it; with no error raised again all `n_trial` were attempted; otherwise the last one attempted raised that error again |
| `Controller.SwallowedErrorsContinue` | neuraxle/metaopt/auto_ml.py:279-282 | when nothing is raised again, all `n_trial` trials are attempted and each gets one final status update |
| `Controller.ReraisedErrorStops` | neuraxle/metaopt/auto_ml.py:279-282 | the first error raised again stops the trials there and is the error the caller sees |
| `Controller.PlanWorkers` | neuraxle/metaopt/auto_ml.py:279-295 | `None` or 1 runs in-process; other values are refused for the in-memory repository; -1 or below becomes `cpu_count + 1 + n_jobs`; fewer than one process is refused |
| `Controller.NegativeJobsCountBack` | neuraxle/metaopt/auto_ml.py:291-293 | a negative count down to `-cpu_count` gives between 1 and `cpu_count` processes, and -1 gives all of them |
| `AutoMLStep.Transform` | neuraxle/metaopt/auto_ml.py:455-458 | refused with `ValueError` exactly when the step does not refit, else the pipeline's transform |
| `AutoMLStep.FitAsWritten` | neuraxle/metaopt/auto_ml.py:438-442 | as written, every fit that refits raises `TypeError` after the round has run |
| `AutoMLStep.Fit` | neuraxle/metaopt/auto_ml.py:438-442 | with the refit called as declared: the round's id, and the refitted pipeline exactly when the flag is set |
| `AutoMLStep.FitTransformWith` | neuraxle/metaopt/auto_ml.py:446-453 | the flag guard's `ValueError` first; then the fit's error; then `TypeError` when the transform call's arguments do not match its two parameters; a result only from a completed fit, transformed by the fitted pipeline |
| `AutoMLStep.FitTransformAsWritten` | neuraxle/metaopt/auto_ml.py:446-453 | as written: `ValueError` without the flag, `TypeError` with it |
| `AutoMLStep.FitTransformCallAsWritten` | neuraxle/metaopt/auto_ml.py:451-452 | with the refit of line 441 corrected, the argument-less transform call still raises `TypeError` whenever the flag is set |
| `AutoMLStep.FitTransformAsWrittenNeverReturns` | neuraxle/metaopt/auto_ml.py:446-453 | as written, fit-transform never returns a result |
| `AutoMLStep.FitTransform` | neuraxle/metaopt/auto_ml.py:446-453 | corrected: `ValueError` exactly when the flag is unset |
| `AutoMLStep.FitTransformIsFitThenTransform` | neuraxle/metaopt/auto_ml.py:446-458 | corrected fit-transform is the corrected fit, then a transform of the data by the refitted pipeline |

## Left out

- **JSON codec.** The codec (`to_json`/`from_json`, the encoder and decoder) is abstracted: a record file holds either a node or text that does not parse, and writing a record stores the node.
- **File system calls.** `os.makedirs`, `open` and `os.listdir` become operations on the disk map, and `os.path.join` becomes sequence concatenation.
- **Undefined node helpers.** `at_dc`, `has_sublocation_dataclasses`, `set_sublocation_keys` and `empty` are called by the on-disk repository but not defined in the vanilla module. They are parameters of the model (`OnDisk.Hooks`). Where a lemma needs `at_dc` to place a child below its parent, it says so by the `PlacesChildBelowParent` hypothesis.
- **Timestamps.** `created_time`, `start_time` and `end_time` (`datetime.now`) are not modelled. Trial status, hyperparameters and log are carried but never interpreted.
- **The aggregates and the trainer.** The trainer, the optimizer and the `Round`/`Trial` aggregates, with their context managers, are opaque. The loop is modelled as the calls it makes on them.
- **Best-trial selection and model files.** Not modelled: best-trial selection, `get_best_hyperparams`, `refit_best_trial`'s body, `_load_virgin_model` and model save/load. They live in modules outside this model.
- **Garbage collection and the process pool.** `gc.collect` is one recorded step. The process pool is not modelled beyond refusing fewer than one process.
- **Logging.** Logging handlers, the logger, and the service registry and locks of the AutoML context are not modelled. Log lines are recorded steps.
- **The in-memory guard.** `InMemoryHyperparamsRepository` enters only as the multiprocessing guard's flag. The vanilla repository does not trip that guard.
- **Comparison of locations.** The `order=True` comparison of `ScopedLocation` is left out, because it compares `None` with values.
- **`main_metric_name`.** `BaseControllerLoop.__init__` binds it to a local name (line 182) while `run` reads `self.main_metric_name`. Whether that attribute exists depends on `TruncableService`, which is not part of this model. The model takes the round as opened.
- **`_attempt_trial`'s inputs.** `_attempt_trial` reads `self.n_trial`, `self.hyperparams_repository`, `self.pipeline` and `self.error_types_to_raise` (line 352), which `DefaultLoop` never sets. Without `error_types_to_raise`, any exception in the body makes the first `except` clause itself raise `AttributeError`, so no error is swallowed. The model takes the trial count, the hyperparameters, the types to raise and the outcome of the trial's body as inputs, so its swallowing path is reachable only once `error_types_to_raise` is defined. It also assumes any failure happens once `repo_trial` is bound.
- Controller.Run: every `trainer.train` call returns. How the aggregates' exit handlers treat a training error, and whether the round then continues, is not modelled.
- OnDisk.Listing: a folder with no listing lists nothing, where `os.listdir` raises `FileNotFoundError`. Both listings (lines 143 and 150) are of the folder of a record just read, which exists on a real disk; the model's disk does not tie files to listings.
- Numerals.ParseInt: accepts a sign and ASCII digits only. Python's `int` also accepts surrounding whitespace, underscores between digits and other Unicode digits. Folder names written by this repository never contain those.
- OnDisk.LoadDc: its contract covers the failing record read and the leaf record. The deep branch is stated by `OnDisk.LoadChildrenInKeyOrder`, and the key-listing branch by `OnDisk.ChildKeys`.
- OnDisk.SaveDc: its contract covers completion and the error kind. What a save writes is stated by `OnDisk.SaveWritesRecord`, `OnDisk.SaveDeepWritesChildren` and `OnDisk.SaveDcStaysInFolder`.
- OnDisk.SaveChildren: its contract gives the error kind only. The records it leaves are stated by `OnDisk.SaveDeepWritesChildren` and `OnDisk.SaveChildrenKeepRecord`.
- Controller.AttemptAll: its contract bounds how far the trials got. What the trials do is stated by `Controller.SwallowedErrorsContinue` and `Controller.ReraisedErrorStops`. As written, `TODO_DELETE_run` cannot reach a trial. With `n_jobs` `None` or 1 it first raises `AttributeError` on `self.n_trial` (line 281), which `DefaultLoop` never sets. With any other `n_jobs` it first raises `AttributeError` on `self.hyperparams_repository` in the `isinstance` guard (line 287), which `DefaultLoop` never sets either. Past those, it would raise `NameError` on `validation_splits`, a name nothing in the module binds (line 282, and line 296 in the multiprocessing branch). The model takes the trial count `nTrial` and the split count `nSplits` as inputs, with one attempt per trial of `range(n_trial)`.
- Controller.PlanWorkers: the repository's kind is an input, `legacyInMemoryRepo`. As written, the `isinstance(self.hyperparams_repository, ...)` guard (line 287) reads an attribute `DefaultLoop` never sets and raises `AttributeError`, so neither the guard nor the `n_jobs` normalisation after it (lines 291-293) is reached. The model states what those lines do once the attribute is bound.

## Findings

| source | as written | input that shows it | evidently intended | confidence | as-written member | corrected member |
|---|---|---|---|---|---|---|
| neuraxle/metaopt/data/vanilla.py:147-150 | the out-of-order message subscripts `dataclass_2_id_attr.keys()`, a view that is not subscriptable, so `TypeError` is raised | `loc[ClientDataclass] = "c"` on `ScopedLocation()` | `ValueError` naming the type that is next to be set | not executed | `Locations.SetItemOutOfOrderRaisesTypeError` | `Locations.SetItem` |
| neuraxle/metaopt/data/vanilla.py:204-211 | `dataklass(_list[-1])` passes the id positionally. For Trial and TrialSplit the first field is the inherited `hyperparams` (lines 373-383), so the stub has number 0 | `ScopedLocation("p", "c", 0, 5).new_dataclass_from_id()` | a trial numbered 5 | not executed | `Locations.NewDataclassFromIdAsWrittenMisaddresses` | `Locations.NewDataclassFromIdReaddresses` |
| neuraxle/metaopt/auto_ml.py:440-442 | `refit_best_trial` is called with a fourth argument, `round_id`, but is declared with three parameters at line 241 | any `fit` of an `AutoML` with `refit_best_trial=True` | `refit_best_trial(pipeline, data_container, cs)` | not executed | `AutoMLStep.FitAsWritten` | `AutoMLStep.Fit` |
| neuraxle/metaopt/auto_ml.py:452 | `_transform_data_container()` is called with no arguments, but takes `data_container` and `context` (line 455) | `fit_transform` with `refit_best_trial=True` once line 441 passes three arguments | `_transform_data_container(data_container, context)` | not executed | `AutoMLStep.FitTransformCallAsWritten` | `AutoMLStep.FitTransformIsFitThenTransform` |
