/** `HyperparamsOnDiskRepository`: every node is one JSON record,
    `metadata.json`, in a folder named after its scope, one `"_"`-prefixed
    segment per set coordinate below the cache folder. Loading reads the
    record and rebuilds the keys from the folder's listing; saving writes the
    record without children and, when deep, recurses into every child.

    The file system is a map from paths to records together with the listing
    of each folder. Four node operations the repository calls are not defined
    by the vanilla module, so they are `Hooks`: parameters of the model. */
module OnDisk {
  import opened Errors
  import opened Kinds
  import opened Nodes
  import opened Locations
  import Numerals
  import Lexical

  const Delim: string := "_"
  const MetadataFile: string := "metadata.json"
  const LogFile: string := "log.txt"

  /** What a record file holds: a decodable node, or text that is not JSON. */
  datatype RecordFile = Record(node: Node) | Malformed(text: string)

  /** Files by path, and the entries of each folder in listing order. */
  datatype Disk = Disk(files: map<Path, RecordFile>, listings: map<Path, seq<string>>)

  /** `dc.empty()`, `dc.has_sublocation_dataclasses()`,
      `dc.set_sublocation_keys(keys)` and `scope.at_dc(dc)`. */
  datatype Hooks = Hooks(
    empty: Node -> Node,
    hasSublocationDataclasses: Node -> bool,
    setSublocationKeys: (Node, seq<Attr>) -> Result<Node>,
    atDc: (Location, Node) -> Location)

  /** `os.listdir(folder)`; a folder never created lists nothing. */
  function Listing(d: Disk, folder: Path): seq<string> {
    if folder in d.listings then d.listings[folder] else []
  }

  // ---------------------------------------------------------------- paths

  /** `get_folder_at_scope`: the cache folder, then `"_" + str(c)` for each
      set coordinate `c` of the gap-free prefix. */
  function Folder(cache: Path, scope: Location): (r: Path)
    ensures |r| == |cache| + Len(scope) && r[..|cache|] == cache
    ensures forall j | 0 <= j < |cache| :: r[j] == cache[j]
    ensures forall j | 0 <= j < Len(scope) :: r[|cache| + j] == Delim + Str(AsList(scope)[j])
  {
    var xs := AsStrings(scope);
    var segments := seq(|xs|, j requires 0 <= j < |xs| => Delim + xs[j]);
    assert forall j | 0 <= j < |xs| :: segments[j] == Delim + xs[j];
    assert forall j | 0 <= j < Len(scope) :: (cache + segments)[|cache| + j] == segments[j];
    cache + segments
  }

  /** The record of the node at a scope: a file directly inside the scope's
      folder, under a name never read back as a key. */
  function RecordPath(cache: Path, scope: Location): (r: Path)
    ensures |r| == |Folder(cache, scope)| + 1 && Below(Folder(cache, scope), r)
    ensures r[|r| - 1] == MetadataFile && !IsDelimited(r[|r| - 1])
  {
    ReservedNamesUndelimited();
    Folder(cache, scope) + [MetadataFile]
  }

  /** `get_scoped_logger_path`: a file directly inside the scope's folder,
      under a name never read back as a key. */
  function LoggerPath(cache: Path, scope: Location): (r: Path)
    ensures |r| == |Folder(cache, scope)| + 1 && Below(Folder(cache, scope), r)
    ensures r[|r| - 1] == LogFile && !IsDelimited(r[|r| - 1])
  {
    ReservedNamesUndelimited();
    Folder(cache, scope) + [LogFile]
  }

  /** `p` lies at or below folder `f`. */
  predicate Below(f: Path, p: Path) {
    |f| <= |p| && p[..|f|] == f
  }

  /** The folder of `scope.with_id(x)` is the folder of `scope` extended by
      exactly the segment `"_" + str(x)`. */
  lemma FolderWithId(cache: Path, scope: Location, x: Attr)
    requires Len(scope) < 6
    ensures Folder(cache, WithId(scope, x).value) == Folder(cache, scope) + [Delim + Str(x)]
  {
    var w := WithId(scope, x).value;
    assert AsList(w) == AsList(scope) + [x];
    var a := Folder(cache, w);
    var b := Folder(cache, scope) + [Delim + Str(x)];
    assert |a| == |b|;
    forall i | 0 <= i < |a| ensures a[i] == b[i] {
      if i >= |cache| {
        var j := i - |cache|;
        assert a[|cache| + j] == Delim + Str(AsList(w)[j]);
        if j < Len(scope) {
          assert b[|cache| + j] == Delim + Str(AsList(scope)[j]);
        }
      }
    }
  }

  /** Folders are the scope's coordinates and nothing else: two scopes share
      a folder exactly when their stringified coordinates agree. */
  lemma FolderDeterminedByStrings(cache: Path, a: Location, b: Location)
    ensures Folder(cache, a) == Folder(cache, b) <==> AsStrings(a) == AsStrings(b)
  {
    if Folder(cache, a) == Folder(cache, b) {
      forall j | 0 <= j < Len(a) ensures AsStrings(a)[j] == AsStrings(b)[j] {
        assert Delim + AsStrings(a)[j] == Delim + AsStrings(b)[j];
        assert (Delim + AsStrings(a)[j])[1..] == AsStrings(a)[j];
      }
    }
  }

  /** A file named without the delimiter, directly in a scope's folder, is
      never the folder of any scope. */
  lemma NamedFileNotFolder(cache: Path, s: Location, t: Location, name: string)
    requires |name| > 0 && name[0] != '_'
    ensures Folder(cache, s) + [name] != Folder(cache, t)
  {
    var p := Folder(cache, s) + [name];
    var f := Folder(cache, t);
    if |p| == |f| {
      assert Len(t) == Len(s) + 1;
      assert f[|f| - 1] == Delim + Str(AsList(t)[Len(t) - 1]);
      assert (Delim + Str(AsList(t)[Len(t) - 1]))[0] == '_';
      assert p[|p| - 1] == name;
    }
  }

  /** No record or log file is ever a scope folder, and a scope's record and
      log file are distinct files in its folder. */
  lemma FilesAreNotFolders(cache: Path, s: Location, t: Location)
    ensures RecordPath(cache, s) != Folder(cache, t)
    ensures LoggerPath(cache, s) != Folder(cache, t)
    ensures RecordPath(cache, s) != LoggerPath(cache, s)
    ensures Below(Folder(cache, s), RecordPath(cache, s)) && Below(Folder(cache, s), LoggerPath(cache, s))
  {
    assert MetadataFile[0] == 'm' && LogFile[0] == 'l';
    NamedFileNotFolder(cache, s, t, MetadataFile);
    NamedFileNotFolder(cache, s, t, LogFile);
    var r := RecordPath(cache, s);
    var g := LoggerPath(cache, s);
    assert r[|r| - 1] != g[|g| - 1];
  }

  // ------------------------------------------------------- listing to keys

  predicate IsDelimited(name: string) {
    |name| >= |Delim| && name[..|Delim|] == Delim
  }

  /** `[s[len("_"):] for s in names if s.startswith("_")]`. */
  function StripDelimited(names: seq<string>): (r: seq<string>)
    ensures |r| <= |names|
    ensures forall k | k in r :: Delim + k in names
    ensures forall i | 0 <= i < |names| && IsDelimited(names[i]) :: names[i][|Delim|..] in r
  {
    if |names| == 0 then []
    else
      var rest := StripDelimited(names[1..]);
      assert forall k | k in rest :: Delim + k in names by {
        forall k | k in rest ensures Delim + k in names {
          assert Delim + k in names[1..];
        }
      }
      assert forall i | 1 <= i < |names| :: names[i] == names[1..][i - 1];
      if IsDelimited(names[0]) then
        assert Delim + names[0][|Delim|..] == names[0];
        [names[0][|Delim|..]] + rest
      else rest
  }

  /** Names without the delimiter, such as the record and log files, give no keys. */
  lemma UndelimitedGiveNoKeys(a: seq<string>, name: string, b: seq<string>)
    requires !IsDelimited(name)
    ensures StripDelimited(a + [name] + b) == StripDelimited(a + b)
    decreases |a|
  {
    if |a| == 0 {
      assert a + [name] + b == [name] + b;
      assert ([name] + b)[1..] == b;
      assert a + b == b;
    } else {
      assert (a + [name] + b)[1..] == a[1..] + [name] + b;
      assert (a + b)[1..] == a[1..] + b;
      UndelimitedGiveNoKeys(a[1..], name, b);
    }
  }

  lemma ReservedNamesUndelimited()
    ensures !IsDelimited(MetadataFile) && !IsDelimited(LogFile)
  {
    assert MetadataFile[..|Delim|][0] != Delim[0];
    assert LogFile[..|Delim|][0] != Delim[0];
  }

  /** The keys of a node given its folder's sorted names: strings for a map
      node, `int(...)` of each for a list node. */
  function ParseKeys(names: seq<string>, isList: bool): (r: Result<seq<Attr>>)
    ensures !isList ==> r.Ok? && |r.value| == |names| && forall i | 0 <= i < |names| :: r.value[i] == AStr(names[i])
    ensures isList && r.Ok? ==>
              |r.value| == |names| &&
              forall i | 0 <= i < |names| :: r.value[i].AInt? && Numerals.ParseInt(names[i]) == Ok(r.value[i].i)
    ensures isList ==> (r.Err? <==> exists i | 0 <= i < |names| :: Numerals.ParseInt(names[i]).Err?)
    ensures r.Err? ==> r.error.ValueError? && r.error.reason.NotAnInteger?
    decreases |names|
  {
    if |names| == 0 then Ok([])
    else if !isList then
      var rest := ParseKeys(names[1..], isList).value;
      Ok([AStr(names[0])] + rest)
    else
      match Numerals.ParseInt(names[0])
      case Err(e) => Err(e)
      case Ok(v) =>
        match ParseKeys(names[1..], isList)
        case Err(e) =>
          var i :| 0 <= i < |names[1..]| && Numerals.ParseInt(names[1..][i]).Err?;
          assert Numerals.ParseInt(names[i + 1]).Err?;
          Err(e)
        case Ok(rest) =>
          assert forall i | 1 <= i < |names| :: names[i] == names[1..][i - 1];
          Ok([AInt(v)] + rest)
  }

  /** `_load_dc_sublocation_keys` before the hook: the listing's delimited
      names, stripped, sorted as strings, then parsed for a list node. */
  function ChildKeys(listing: seq<string>, isList: bool): (r: Result<seq<Attr>>)
    ensures !isList ==> r.Ok?
    ensures r.Err? ==> r.error.ValueError? && r.error.reason.NotAnInteger?
    ensures r.Ok? ==> |r.value| == |StripDelimited(listing)|
    ensures r.Ok? ==> forall i | 0 <= i < |r.value| :: Delim + Lexical.Sort(StripDelimited(listing))[i] in listing
  {
    var names := Lexical.Sort(StripDelimited(listing));
    assert |names| == |multiset(names)| == |StripDelimited(listing)|;
    assert forall i | 0 <= i < |names| :: names[i] in StripDelimited(listing) by {
      forall i | 0 <= i < |names| ensures names[i] in StripDelimited(listing) {
        assert names[i] in multiset(names);
      }
    }
    ParseKeys(names, isList)
  }

  /** Map keys come out sorted and are exactly the stripped delimited names. */
  lemma MapKeysSorted(listing: seq<string>)
    ensures var r := ChildKeys(listing, false);
            r.Ok? && Lexical.Sorted(seq(|r.value|, i requires 0 <= i < |r.value| => Str(r.value[i])))
            && multiset(seq(|r.value|, i requires 0 <= i < |r.value| => Str(r.value[i]))) == multiset(StripDelimited(listing))
  {
    var names := Lexical.Sort(StripDelimited(listing));
    var r := ChildKeys(listing, false);
    assert seq(|r.value|, i requires 0 <= i < |r.value| => Str(r.value[i])) == names;
  }

  lemma StripExample()
    ensures StripDelimited([MetadataFile, "_2", LogFile, "_10"]) == ["2", "10"]
  {
    ReservedNamesUndelimited();
    DropUndelimited(MetadataFile, "_2", LogFile, "_10");
    StripTwoDelimited("_2", "_10");
  }

  lemma DropUndelimited(m: string, a: string, l: string, b: string)
    requires !IsDelimited(m) && !IsDelimited(l)
    ensures StripDelimited([m, a, l, b]) == StripDelimited([a, b])
  {
    assert [m, a, l, b] == [] + [m] + [a, l, b];
    UndelimitedGiveNoKeys([], m, [a, l, b]);
    assert [] + [a, l, b] == [a] + [l] + [b];
    UndelimitedGiveNoKeys([a], l, [b]);
    assert [a] + [b] == [a, b];
  }

  lemma StripTwoDelimited(a: string, b: string)
    requires IsDelimited(a) && IsDelimited(b)
    ensures StripDelimited([a, b]) == [a[|Delim|..], b[|Delim|..]]
  {
    assert [a, b][1..] == [b];
    assert [b][1..] == [];
  }

  lemma SortExample()
    ensures Lexical.Sort(["2", "10"]) == ["10", "2"]
  {
    assert Lexical.LexLe("10", "2");
    assert !Lexical.LexLe("2", "10");
    assert ["2", "10"][1..] == ["10"];
    assert ["10"][1..] == [];
    assert Lexical.Sort(["10"]) == ["10"];
  }

  lemma ParseExample()
    ensures ParseKeys(["10", "2"], true) == Ok([AInt(10), AInt(2)])
  {
    Numerals.ParseIntOfIntToString(10);
    assert Numerals.IntToString(10) == "10";
    Numerals.ParseIntOfIntToString(2);
    assert Numerals.IntToString(2) == "2";
    var names := ["10", "2"];
    assert forall i | 0 <= i < |names| :: Numerals.ParseInt(names[i]).Ok?;
    var r := ParseKeys(names, true);
    assert r.value[0] == AInt(10) && r.value[1] == AInt(2);
    assert r.value == [AInt(10), AInt(2)];
  }

  /** Numeric ids come out in lexical order, not numeric order: children
      `_2` and `_10` are listed as 10, then 2. */
  lemma ListKeysLexical()
    ensures ChildKeys([MetadataFile, "_2", LogFile, "_10"], true) == Ok([AInt(10), AInt(2)])
  {
    StripExample();
    SortExample();
    ParseExample();
  }

  // ------------------------------------------------------------------ load

  /** `_load_json_file`: a missing file raises `KeyError`; text that does not
      parse raises `ValueError` carrying the text, the path and the listing of
      the folder holding it. */
  function LoadJsonFile(d: Disk, file: Path): (r: Result<Node>)
    requires |file| > 0
    ensures file !in d.files <==> r == Err(KeyError)
    ensures r.Ok? <==> file in d.files && d.files[file].Record?
    ensures r.Ok? ==> d.files[file] == Record(r.value)
    ensures file in d.files && d.files[file].Malformed? ==>
              r == Err(ValueError(InvalidJson(d.files[file].text, file, Listing(d, file[..|file| - 1]))))
  {
    if file !in d.files then Err(KeyError)
    else match d.files[file]
      case Record(n) => Ok(n)
      case Malformed(t) => Err(ValueError(InvalidJson(t, file, Listing(d, file[..|file| - 1]))))
  }

  /** `_load_dc_sublocation_keys`: the keys read back from the folder's
      listing are handed to `set_sublocation_keys`, whose `AssertionError` is
      re-raised. A list node's non-integer name fails before the hook; a map
      node's keys never do. */
  function LoadSublocationKeys(h: Hooks, d: Disk, cache: Path, n: Node, scope: Location): (r: Result<Node>)
    ensures var keys := ChildKeys(Listing(d, Folder(cache, scope)), !IsMapKind(KindOf(n)));
            && (keys.Ok? ==> r == h.setSublocationKeys(n, keys.value))
            && (keys.Err? ==> r.Err? && r.error.ValueError? && r.error.reason.NotAnInteger?)
            && (IsMapKind(KindOf(n)) ==> keys.Ok?)
  {
    var keys :- ChildKeys(Listing(d, Folder(cache, scope)), !IsMapKind(KindOf(n)));
    h.setSublocationKeys(n, keys)
  }

  /** `store(sub_dc)` on a loaded child. A Root child has no id: a map parent
      rejects the `None` key, a list parent cannot compare it with its length. */
  function StoreLoaded(n: Node, c: Node): (r: Result<Node>)
    ensures !c.Root? ==> (r.Ok? <==> Store(n, c).result.Ok?)
    ensures !c.Root? && r.Ok? ==> r.value == Store(n, c).node
    ensures c.Root? ==> r.Err?
  {
    if c.Root? then (if IsMapKind(KindOf(n)) then Err(ValueError(NonStringKey)) else Err(TypeError))
    else
      var st := Store(n, c);
      match st.result
      case Ok(_) => Ok(st.node)
      case Err(e) => Err(e)
  }

  /** `_load_dc(scope, deep)`. The scope is used as given (patching it for
      no dataclass leaves it unchanged). */
  function LoadDc(h: Hooks, d: Disk, cache: Path, scope: Location, deep: bool): (r: Result<Node>)
    ensures LoadJsonFile(d, RecordPath(cache, scope)).Err? ==> r == LoadJsonFile(d, RecordPath(cache, scope))
    ensures LoadJsonFile(d, RecordPath(cache, scope)).Ok? &&
            !h.hasSublocationDataclasses(LoadJsonFile(d, RecordPath(cache, scope)).value) ==>
              r == LoadJsonFile(d, RecordPath(cache, scope))
    decreases 6 - Len(scope), 1, 0
  {
    var n :- LoadJsonFile(d, RecordPath(cache, scope));
    if !h.hasSublocationDataclasses(n) then Ok(n)
    else
      var m :- LoadSublocationKeys(h, d, cache, n, scope);
      if !deep then Ok(m) else LoadChildren(h, d, cache, scope, m, SublocationKeys(m), 0)
  }

  /** The loop of a deep `_load_dc`: each key, in order, is loaded at
      `scope.with_id(key)` and stored into the node. */
  function LoadChildren(h: Hooks, d: Disk, cache: Path, scope: Location, n: Node, keys: seq<Attr>, i: nat)
    : (r: Result<Node>)
    requires i <= |keys|
    ensures i == |keys| ==> r == Ok(n)
    ensures i < |keys| && Len(scope) == 6 ==> r == Err(TypeError)
    ensures r.Ok? ==> Bare(r.value) == Bare(n)
    decreases 6 - Len(scope), 0, |keys| - i
  {
    if i == |keys| then Ok(n)
    else
      var sub :- WithId(scope, keys[i]);
      var c :- LoadDc(h, d, cache, sub, true);
      var n' :- StoreLoaded(n, c);
      LoadChildren(h, d, cache, scope, n', keys, i + 1)
  }

  /** The children a deep load reads, key by key, each from its own scope
      (a scope below six coordinates, so that `with_id` succeeds). */
  function LoadEach(h: Hooks, d: Disk, cache: Path, scope: Location, keys: seq<Attr>): (r: Result<seq<Node>>)
    requires Len(scope) < 6
    ensures r.Ok? ==> |r.value| == |keys|
    ensures r.Ok? ==> forall i | 0 <= i < |keys| ::
              Ok(r.value[i]) == LoadDc(h, d, cache, WithId(scope, keys[i]).value, true)
    decreases |keys|
  {
    if |keys| == 0 then Ok([])
    else
      var sub := WithId(scope, keys[0]).value;
      var c :- LoadDc(h, d, cache, sub, true);
      var rest :- LoadEach(h, d, cache, scope, keys[1..]);
      assert forall i | 1 <= i < |keys| :: keys[i] == keys[1..][i - 1];
      Ok([c] + rest)
  }

  /** Storing loaded children one after the other. */
  function StoreAll(n: Node, cs: seq<Node>): Result<Node>
    decreases |cs|
  {
    if |cs| == 0 then Ok(n)
    else
      var n' :- StoreLoaded(n, cs[0]);
      StoreAll(n', cs[1..])
  }

  /** A deep load succeeds exactly when every child loads and storing the
      children in key order succeeds, and then it is that result: the loop
      stores each child in key order. */
  lemma {:induction false} LoadChildrenInKeyOrder(h: Hooks, d: Disk, cache: Path, scope: Location, n: Node,
                                                  keys: seq<Attr>)
    requires Len(scope) < 6
    ensures LoadChildren(h, d, cache, scope, n, keys, 0).Ok? ==>
              LoadEach(h, d, cache, scope, keys).Ok? &&
              StoreAll(n, LoadEach(h, d, cache, scope, keys).value) == LoadChildren(h, d, cache, scope, n, keys, 0)
    ensures LoadEach(h, d, cache, scope, keys).Ok? && StoreAll(n, LoadEach(h, d, cache, scope, keys).value).Ok? ==>
              LoadChildren(h, d, cache, scope, n, keys, 0) == StoreAll(n, LoadEach(h, d, cache, scope, keys).value)
    decreases |keys|
  {
    if |keys| > 0 {
      LoadChildrenShift(h, d, cache, scope, n, keys);
      var sub := WithId(scope, keys[0]).value;
      var c := LoadDc(h, d, cache, sub, true);
      if c.Ok? && StoreLoaded(n, c.value).Ok? {
        LoadChildrenInKeyOrder(h, d, cache, scope, StoreLoaded(n, c.value).value, keys[1..]);
      }
    }
  }

  /** The loop from position 1 over `keys` is the loop over `keys[1..]`. */
  lemma LoadChildrenShift(h: Hooks, d: Disk, cache: Path, scope: Location, n: Node, keys: seq<Attr>)
    requires Len(scope) < 6 && |keys| > 0
    ensures var c := LoadDc(h, d, cache, WithId(scope, keys[0]).value, true);
            LoadChildren(h, d, cache, scope, n, keys, 0) ==
              if c.Err? then Err(c.error)
              else if StoreLoaded(n, c.value).Err? then Err(StoreLoaded(n, c.value).error)
              else LoadChildren(h, d, cache, scope, StoreLoaded(n, c.value).value, keys[1..], 0)
  {
    var c := LoadDc(h, d, cache, WithId(scope, keys[0]).value, true);
    if c.Ok? && StoreLoaded(n, c.value).Ok? {
      LoadChildrenSuffix(h, d, cache, scope, StoreLoaded(n, c.value).value, keys, 1);
    }
  }

  /** The loop from position `i` depends on the keys from `i` on only. */
  lemma {:induction false} LoadChildrenSuffix(h: Hooks, d: Disk, cache: Path, scope: Location, n: Node,
                                              keys: seq<Attr>, i: nat)
    requires 0 < i <= |keys|
    ensures LoadChildren(h, d, cache, scope, n, keys, i) == LoadChildren(h, d, cache, scope, n, keys[1..], i - 1)
    decreases |keys| - i
  {
    if i < |keys| {
      assert keys[1..][i - 1] == keys[i];
      var w := WithId(scope, keys[i]);
      if w.Ok? {
        var c := LoadDc(h, d, cache, w.value, true);
        if c.Ok? && StoreLoaded(n, c.value).Ok? {
          LoadChildrenSuffix(h, d, cache, scope, StoreLoaded(n, c.value).value, keys, i + 1);
        }
      }
    }
  }

  /** `load(scope, deep)`: a `KeyError` anywhere in `_load_dc` gives the stub
      `new_dataclass_from_id()` builds as written; every other failure
      propagates. */
  function Load(h: Hooks, d: Disk, cache: Path, scope: Location, deep: bool): (r: Result<Node>)
    ensures LoadDc(h, d, cache, scope, deep) == Err(KeyError) ==> r == NewDataclassFromIdAsWritten(scope)
    ensures LoadDc(h, d, cache, scope, deep) != Err(KeyError) ==> r == LoadDc(h, d, cache, scope, deep)
  {
    match LoadDc(h, d, cache, scope, deep)
    case Err(KeyError) => NewDataclassFromIdAsWritten(scope)
    case other => other
  }

  /** A missing record answers the load with the stub for the scope: the
      empty scope raises `IndexError`; otherwise the stub sits at the scope's
      depth and carries its last coordinate, except that a trial or split
      stub is numbered 0. */
  lemma MissingRecordStubs(h: Hooks, d: Disk, cache: Path, scope: Location, deep: bool)
    requires RecordPath(cache, scope) !in d.files
    ensures Load(h, d, cache, scope, deep) == NewDataclassFromIdAsWritten(scope)
    ensures Len(scope) == 0 <==> Load(h, d, cache, scope, deep) == Err(IndexError)
    ensures Len(scope) > 0 ==> Load(h, d, cache, scope, deep).Ok? &&
                               Depth(KindOf(Load(h, d, cache, scope, deep).value)) == Len(scope)
    ensures Len(scope) > 0 && Len(scope) != 4 && Len(scope) != 5 ==>
              GetId(Load(h, d, cache, scope, deep).value) == Some(AsList(scope)[Len(scope) - 1])
    ensures Len(scope) == 4 || Len(scope) == 5 ==> GetId(Load(h, d, cache, scope, deep).value) == Some(AInt(0))
  {
  }

  /** A record that does not parse fails the load with `ValueError`, naming
      the text, the record path and the folder listing; `load` does not
      catch it. */
  lemma MalformedRecordFails(h: Hooks, d: Disk, cache: Path, scope: Location, deep: bool)
    requires RecordPath(cache, scope) in d.files && d.files[RecordPath(cache, scope)].Malformed?
    ensures Load(h, d, cache, scope, deep) ==
            Err(ValueError(InvalidJson(d.files[RecordPath(cache, scope)].text, RecordPath(cache, scope),
                                       Listing(d, Folder(cache, scope)))))
  {
    assert RecordPath(cache, scope)[..|RecordPath(cache, scope)| - 1] == Folder(cache, scope);
  }

  /** A record whose node has no sub-dataclasses is loaded as it was written. */
  lemma LeafRecordLoads(h: Hooks, d: Disk, cache: Path, scope: Location, deep: bool)
    requires RecordPath(cache, scope) in d.files && d.files[RecordPath(cache, scope)].Record?
    requires !h.hasSublocationDataclasses(d.files[RecordPath(cache, scope)].node)
    ensures Load(h, d, cache, scope, deep) == Ok(d.files[RecordPath(cache, scope)].node)
  {
  }

  /** A missing record below the scope, met during a deep load, also makes
      `load` answer with the stub for the scope itself. */
  lemma MissingChildStubsParent(h: Hooks, d: Disk, cache: Path, scope: Location, n: Node, m: Node)
    requires RecordPath(cache, scope) in d.files && d.files[RecordPath(cache, scope)] == Record(n)
    requires h.hasSublocationDataclasses(n) && LoadSublocationKeys(h, d, cache, n, scope) == Ok(m)
    requires Size(m) > 0 && Len(scope) < 6
    requires RecordPath(cache, WithId(scope, SublocationKeys(m)[0]).value) !in d.files
    ensures Load(h, d, cache, scope, true) == NewDataclassFromIdAsWritten(scope)
  {
    var sub := WithId(scope, SublocationKeys(m)[0]).value;
    assert LoadDc(h, d, cache, sub, true) == Err(KeyError);
    assert LoadChildren(h, d, cache, scope, m, SublocationKeys(m), 0) == Err(KeyError);
  }

  // ------------------------------------------------------------------ save

  /** Add `name` to the listing of `folder` unless it is there. */
  function AddEntry(d: Disk, folder: Path, name: string): (r: Disk)
    ensures r.files == d.files && name in Listing(r, folder)
  {
    var l := Listing(d, folder);
    d.(listings := d.listings[folder := if name in l then l else l + [name]])
  }

  /** `os.makedirs(folder, exist_ok=True)`: every ancestor lists the next segment. */
  function MakeDirs(d: Disk, folder: Path): (r: Disk)
    ensures r.files == d.files
    decreases |folder|
  {
    if |folder| == 0 then d
    else AddEntry(MakeDirs(d, folder[..|folder| - 1]), folder[..|folder| - 1], folder[|folder| - 1])
  }

  /** `open(folder/name, 'w')` and the write of its content. */
  function Write(d: Disk, folder: Path, name: string, content: RecordFile): (r: Disk)
    ensures r.files == d.files[folder + [name] := content]
  {
    AddEntry(d, folder, name).(files := d.files[folder + [name] := content])
  }

  /** Adding an entry removes none: every listed name stays listed. */
  lemma AddEntryKeepsListings(d: Disk, folder: Path, name: string, f: Path, x: string)
    requires x in Listing(d, f)
    ensures x in Listing(AddEntry(d, folder, name), f)
  {
  }

  /** After `os.makedirs(folder)` each ancestor of `folder` lists the next
      segment of it, and whatever was listed before still is. */
  lemma {:induction false} MakeDirsListsAncestors(d: Disk, folder: Path)
    ensures forall j | 0 <= j < |folder| :: folder[j] in Listing(MakeDirs(d, folder), folder[..j])
    ensures forall f, x | x in Listing(d, f) :: x in Listing(MakeDirs(d, folder), f)
    decreases |folder|
  {
    if |folder| > 0 {
      var up := folder[..|folder| - 1];
      var before := MakeDirs(d, up);
      MakeDirsListsAncestors(d, up);
      forall j | 0 <= j < |folder| ensures folder[j] in Listing(MakeDirs(d, folder), folder[..j]) {
        if j < |up| {
          assert up[j] == folder[j] && up[..j] == folder[..j];
          AddEntryKeepsListings(before, up, folder[|folder| - 1], folder[..j], folder[j]);
        } else {
          assert folder[..j] == up;
        }
      }
      forall f, x | x in Listing(d, f) ensures x in Listing(MakeDirs(d, folder), f) {
        AddEntryKeepsListings(before, up, folder[|folder| - 1], f, x);
      }
    }
  }

  /** A written file is listed in its folder, and no listed name is lost. */
  lemma WriteLists(d: Disk, folder: Path, name: string, content: RecordFile)
    ensures name in Listing(Write(d, folder, name, content), folder)
    ensures forall f, x | x in Listing(d, f) :: x in Listing(Write(d, folder, name, content), f)
  {
    forall f, x | x in Listing(d, f) ensures x in Listing(Write(d, folder, name, content), f) {
      AddEntryKeepsListings(d, folder, name, f, x);
    }
  }

  /** `_patch_scope_for_dataclass` for a node: a node with an id is placed
      with `at_dc`, then its own coordinate set to its id; Root is left where
      it is. */
  function PatchScope(h: Hooks, dc: Node, scope: Location): (r: Location)
    ensures dc.Root? ==> r == scope
    ensures !dc.Root? ==> Coordinate(r, KindOf(dc)) == Some(Id(dc))
    ensures PlacesChildBelowParent(h) && !dc.Root? && Len(scope) + 1 == Depth(KindOf(dc)) ==>
              AsList(r) == AsList(scope) + [Id(dc)]
  {
    if dc.Root? then scope
    else SetField(h.atDc(scope, dc), IdIndex(KindOf(dc)).value, Some(Id(dc)))
  }

  /** `_save_dc(dc, scope, deep)`: make the folder, write the record of
      `dc.empty()`, then, when deep and the node has sub-dataclasses, save
      every child value at the patched scope. */
  function SaveDc(h: Hooks, d: Disk, cache: Path, dc: Node, scope: Location, deep: bool): (r: Outcome<Disk>)
    ensures !deep || !h.hasSublocationDataclasses(dc) ==> r.Done?
    ensures r.Raised? ==> r.error == AttributeError
    decreases dc, 1
  {
    var p := PatchScope(h, dc, scope);
    var folder := Folder(cache, p);
    var written := Write(MakeDirs(d, folder), folder, MetadataFile, Record(h.empty(dc)));
    if deep && h.hasSublocationDataclasses(dc) then SaveChildren(h, written, cache, dc, p, 0)
    else Done(written)
  }

  /** The loop of a deep `_save_dc` over `get_sublocation_values()` from
      position `i`. A placeholder child (`None`) is saved at the parent's own
      scope: its folder is made and the parent's record opened for writing,
      so truncated, before `None.empty()` raises `AttributeError`. A metric
      value has no `get_id`, so it raises before anything is written. */
  function SaveChildren(h: Hooks, d: Disk, cache: Path, owner: Node, scope: Location, i: nat): (r: Outcome<Disk>)
    requires i <= Size(owner)
    ensures r.Raised? ==> r.error == AttributeError
    decreases owner, 0, Size(owner) - i
  {
    if i == Size(owner) then Done(d)
    else match SublocationValues(owner)[i]
      case Unset =>
        var folder := Folder(cache, scope);
        Raised(Write(MakeDirs(d, folder), folder, MetadataFile, Malformed("")), AttributeError)
      case Score(_) => Raised(d, AttributeError)
      case Child(c) =>
        ValueSmaller(owner, i);
        match SaveDc(h, d, cache, c, scope, true)
        case Raised(s, e) => Raised(s, e)
        case Done(s) => SaveChildren(h, s, cache, owner, scope, i + 1)
  }

  /** `at_dc` applied to the scope of a node's parent, followed by setting the
      node's own coordinate, gives the parent's coordinates and then the
      node's id: the least any placement of a child below its parent does. */
  ghost predicate PlacesChildBelowParent(h: Hooks) {
    forall s: Location, c: Node {:trigger h.atDc(s, c)} ::
      !c.Root? && Len(s) + 1 == Depth(KindOf(c)) ==>
        AsList(SetField(h.atDc(s, c), IdIndex(KindOf(c)).value, Some(Id(c)))) == AsList(s) + [Id(c)]
  }

  /** The files of `b` are those of `a` except at or below folder `f`. */
  predicate SameFilesOutside(a: Disk, b: Disk, f: Path) {
    && (forall p | p in a.files && !Below(f, p) :: p in b.files && b.files[p] == a.files[p])
    && (forall p | p in b.files && !Below(f, p) :: p in a.files)
  }

  lemma SameFilesOutsideTrans(a: Disk, b: Disk, c: Disk, f: Path)
    requires SameFilesOutside(a, b, f) && SameFilesOutside(b, c, f)
    ensures SameFilesOutside(a, c, f)
  {
  }

  lemma SameFilesOutsideWiden(a: Disk, b: Disk, f: Path, x: string)
    requires SameFilesOutside(a, b, f + [x])
    ensures SameFilesOutside(a, b, f)
  {
  }

  /** A child's folder is its parent's folder and one segment. */
  lemma ChildFolder(h: Hooks, cache: Path, scope: Location, c: Node)
    requires PlacesChildBelowParent(h) && !c.Root? && Len(scope) + 1 == Depth(KindOf(c))
    ensures Len(PatchScope(h, c, scope)) == Depth(KindOf(c))
    ensures Folder(cache, PatchScope(h, c, scope)) == Folder(cache, scope) + [Delim + Str(Id(c))]
  {
    var p := PatchScope(h, c, scope);
    assert AsList(p) == AsList(scope) + [Id(c)];
    FolderOfExtended(cache, scope, p, Id(c));
  }

  /** Extending a location by one coordinate extends its folder by one segment. */
  lemma FolderOfExtended(cache: Path, scope: Location, p: Location, x: Attr)
    requires AsList(p) == AsList(scope) + [x]
    ensures Folder(cache, p) == Folder(cache, scope) + [Delim + Str(x)]
  {
    var a := Folder(cache, p);
    var b := Folder(cache, scope) + [Delim + Str(x)];
    assert |a| == |b|;
    forall j | 0 <= j < |a| ensures a[j] == b[j] {
      if |cache| <= j < |cache| + Len(scope) {
        assert AsList(p)[j - |cache|] == AsList(scope)[j - |cache|];
      }
    }
  }

  /** A save writes only at or below the folder of the scope the node is
      placed at, whatever it raises. */
  lemma {:induction false} SaveDcStaysInFolder(h: Hooks, d: Disk, cache: Path, dc: Node, scope: Location, deep: bool)
    requires PlacesChildBelowParent(h) && WellFormed(dc)
    requires Len(PatchScope(h, dc, scope)) == Depth(KindOf(dc))
    ensures SameFilesOutside(d, SaveDc(h, d, cache, dc, scope, deep).state, Folder(cache, PatchScope(h, dc, scope)))
    decreases dc, 1
  {
    var p := PatchScope(h, dc, scope);
    var folder := Folder(cache, p);
    var written := Write(MakeDirs(d, folder), folder, MetadataFile, Record(h.empty(dc)));
    WriteStaysInFolder(d, folder, MetadataFile, Record(h.empty(dc)));
    if deep && h.hasSublocationDataclasses(dc) {
      SaveChildrenStayInFolder(h, written, cache, dc, p, 0);
      SameFilesOutsideTrans(d, written, SaveChildren(h, written, cache, dc, p, 0).state, folder);
    }
  }

  lemma {:induction false} SaveChildrenStayInFolder(h: Hooks, d: Disk, cache: Path, owner: Node, scope: Location, i: nat)
    requires PlacesChildBelowParent(h) && WellFormed(owner) && i <= Size(owner)
    requires Len(scope) == Depth(KindOf(owner))
    ensures SameFilesOutside(d, SaveChildren(h, d, cache, owner, scope, i).state, Folder(cache, scope))
    decreases owner, 0, Size(owner) - i
  {
    if i < Size(owner) {
      var folder := Folder(cache, scope);
      match SublocationValues(owner)[i]
      case Unset =>
        WriteStaysInFolder(d, folder, MetadataFile, Malformed(""));
      case Score(_) =>
      case Child(c) =>
        ValueSmaller(owner, i);
        SaveChildStaysInFolder(h, d, cache, owner, scope, i);
        match SaveDc(h, d, cache, c, scope, true)
        case Raised(s, e) =>
        case Done(s) =>
          SaveChildrenStayInFolder(h, s, cache, owner, scope, i + 1);
          SameFilesOutsideTrans(d, s, SaveChildren(h, s, cache, owner, scope, i + 1).state, folder);
    }
  }

  /** Saving one child writes only below the owner's folder. */
  lemma SaveChildStaysInFolder(h: Hooks, d: Disk, cache: Path, owner: Node, scope: Location, i: nat)
    requires PlacesChildBelowParent(h) && WellFormed(owner) && i < Size(owner) && SublocationValues(owner)[i].Child?
    requires Len(scope) == Depth(KindOf(owner))
    ensures SublocationValues(owner)[i].node < owner
    ensures SameFilesOutside(d, SaveDc(h, d, cache, SublocationValues(owner)[i].node, scope, true).state,
                             Folder(cache, scope))
    decreases owner, 0, Size(owner) - i - 1
  {
    var c := SublocationValues(owner)[i].node;
    ValueSmaller(owner, i);
    ChildOfWellFormed(owner, i);
    ChildFolder(h, cache, scope, c);
    SaveDcStaysInFolder(h, d, cache, c, scope, true);
    SameFilesOutsideWiden(d, SaveDc(h, d, cache, c, scope, true).state, Folder(cache, scope), Delim + Str(Id(c)));
  }

  /** Making a folder and writing one file in it changes no file elsewhere. */
  lemma WriteStaysInFolder(d: Disk, folder: Path, name: string, content: RecordFile)
    ensures SameFilesOutside(d, Write(MakeDirs(d, folder), folder, name, content), folder)
  {
    assert Below(folder, folder + [name]);
  }

  /** The children of a well-formed node are well formed and one level down. */
  lemma ChildOfWellFormed(n: Node, i: nat)
    requires WellFormed(n) && i < Size(n) && SublocationValues(n)[i].Child?
    ensures WellFormed(SublocationValues(n)[i].node)
    ensures Depth(KindOf(SublocationValues(n)[i].node)) == Depth(KindOf(n)) + 1
    ensures !SublocationValues(n)[i].node.Root?
    ensures Id(SublocationValues(n)[i].node) == SublocationKeys(n)[i]
  {
    var a := SublocationKeys(n)[i];
    assert a in SublocationKeys(n);
    var j := SlotAtIsValue(n, a);
    assert j == i by {
      WellFormedKeysDistinct(n);
    }
    WellFormedSlot(n, a);
    WellFormedSlotChild(n, a);
  }

  /** Saved children leave the parent's own record alone: their folders lie
      one delimited segment below the parent's folder. */
  lemma {:induction false} SaveChildrenKeepRecord(h: Hooks, d: Disk, cache: Path, owner: Node, scope: Location, i: nat)
    requires PlacesChildBelowParent(h) && WellFormed(owner) && i <= Size(owner)
    requires Len(scope) == Depth(KindOf(owner))
    requires SaveChildren(h, d, cache, owner, scope, i).Done?
    ensures RecordPath(cache, scope) in d.files <==> RecordPath(cache, scope) in SaveChildren(h, d, cache, owner, scope, i).state.files
    ensures RecordPath(cache, scope) in d.files ==>
              SaveChildren(h, d, cache, owner, scope, i).state.files[RecordPath(cache, scope)] == d.files[RecordPath(cache, scope)]
    decreases Size(owner) - i
  {
    if i < Size(owner) {
      var c := SublocationValues(owner)[i].node;
      var folder := Folder(cache, scope);
      var rec := RecordPath(cache, scope);
      ValueSmaller(owner, i);
      ChildOfWellFormed(owner, i);
      ChildFolder(h, cache, scope, c);
      SaveDcStaysInFolder(h, d, cache, c, scope, true);
      assert !Below(folder + [Delim + Str(Id(c))], rec) by {
        assert rec[|folder|] == MetadataFile;
        assert MetadataFile[0] != (Delim + Str(Id(c)))[0];
      }
      var s := SaveDc(h, d, cache, c, scope, true).state;
      SaveChildrenKeepRecord(h, s, cache, owner, scope, i + 1);
    }
  }

  /** A save that completes leaves the node's record, without children, at
      the scope it placed the node at, and loading that record gives it back. */
  lemma SaveWritesRecord(h: Hooks, d: Disk, cache: Path, dc: Node, scope: Location, deep: bool)
    requires PlacesChildBelowParent(h) && WellFormed(dc)
    requires Len(PatchScope(h, dc, scope)) == Depth(KindOf(dc))
    requires SaveDc(h, d, cache, dc, scope, deep).Done?
    ensures var p := PatchScope(h, dc, scope);
            var s := SaveDc(h, d, cache, dc, scope, deep).state;
            RecordPath(cache, p) in s.files && s.files[RecordPath(cache, p)] == Record(h.empty(dc))
            && LoadJsonFile(s, RecordPath(cache, p)) == Ok(h.empty(dc))
  {
    var p := PatchScope(h, dc, scope);
    var folder := Folder(cache, p);
    var written := Write(MakeDirs(d, folder), folder, MetadataFile, Record(h.empty(dc)));
    if deep && h.hasSublocationDataclasses(dc) {
      SaveChildrenKeepRecord(h, written, cache, dc, p, 0);
    }
  }

  /** Two children of a well-formed node have different folder segments:
      their ids are distinct keys, all strings or all list indices. */
  lemma ChildSegmentsDistinct(n: Node, i: nat, j: nat)
    requires WellFormed(n) && i < Size(n) && j < Size(n) && i != j
    requires SublocationValues(n)[i].Child? && SublocationValues(n)[j].Child?
    ensures Str(Id(SublocationValues(n)[i].node)) != Str(Id(SublocationValues(n)[j].node))
  {
    ChildOfWellFormed(n, i);
    ChildOfWellFormed(n, j);
    WellFormedKeysDistinct(n);
    var a, b := SublocationKeys(n)[i], SublocationKeys(n)[j];
    assert a != b by {
      if i < j { assert SublocationKeys(n)[i] != SublocationKeys(n)[j]; }
      else { assert SublocationKeys(n)[j] != SublocationKeys(n)[i]; }
    }
    if !IsMapKind(KindOf(n)) {
      if Str(a) == Str(b) {
        Numerals.IntToStringInjective(i, j);
      }
    } else {
      assert a.AStr? && b.AStr?;
    }
  }

  /** Saving the children from position `i` on leaves alone every file that
      lies below none of their folders. */
  lemma {:induction false} SaveChildrenKeepOutside(h: Hooks, d: Disk, cache: Path, owner: Node, scope: Location, i: nat, f: Path)
    requires PlacesChildBelowParent(h) && WellFormed(owner) && i <= Size(owner)
    requires Len(scope) == Depth(KindOf(owner))
    requires SaveChildren(h, d, cache, owner, scope, i).Done?
    requires forall j | i <= j < Size(owner) :: SublocationValues(owner)[j].Child? ==>
               !Below(Folder(cache, scope) + [Delim + Str(Id(SublocationValues(owner)[j].node))], f)
    ensures f in d.files <==> f in SaveChildren(h, d, cache, owner, scope, i).state.files
    ensures f in d.files ==> SaveChildren(h, d, cache, owner, scope, i).state.files[f] == d.files[f]
    decreases Size(owner) - i
  {
    if i < Size(owner) {
      var c := SublocationValues(owner)[i].node;
      ValueSmaller(owner, i);
      ChildOfWellFormed(owner, i);
      ChildFolder(h, cache, scope, c);
      SaveDcStaysInFolder(h, d, cache, c, scope, true);
      var s := SaveDc(h, d, cache, c, scope, true).state;
      SaveChildrenKeepOutside(h, s, cache, owner, scope, i + 1, f);
    }
  }

  /** The child at position `j` of `owner` is a node whose record, without
      its own children, is at the scope it is placed at below `scope`. */
  ghost predicate ChildRecordAt(h: Hooks, s: Disk, cache: Path, owner: Node, scope: Location, j: nat)
    requires j < Size(owner)
  {
    && SublocationValues(owner)[j].Child?
    && var c := SublocationValues(owner)[j].node;
       var rec := RecordPath(cache, PatchScope(h, c, scope));
       rec in s.files && s.files[rec] == Record(h.empty(c))
  }

  /** A completed save of the children from position `i` on finds a child at
      every one of those positions and leaves each child's record, without
      its own children, at the scope the child is placed at. */
  lemma {:induction false} SaveChildrenWriteRecords(h: Hooks, d: Disk, cache: Path, owner: Node, scope: Location, i: nat)
    requires PlacesChildBelowParent(h) && WellFormed(owner) && i <= Size(owner)
    requires Len(scope) == Depth(KindOf(owner))
    requires SaveChildren(h, d, cache, owner, scope, i).Done?
    ensures forall j | i <= j < Size(owner) ::
              ChildRecordAt(h, SaveChildren(h, d, cache, owner, scope, i).state, cache, owner, scope, j)
    decreases Size(owner) - i
  {
    if i < Size(owner) {
      var c := SaveChildrenStep(h, d, cache, owner, scope, i);
      var s1 := SaveDc(h, d, cache, c, scope, true).state;
      FirstChildRecordKept(h, d, cache, owner, scope, i, c);
      SaveChildrenWriteRecords(h, s1, cache, owner, scope, i + 1);
      ChildRecordsFrom(h, SaveChildren(h, s1, cache, owner, scope, i + 1).state, cache, owner, scope, i);
    }
  }

  /** The records of the children from `i` on are those of the child at `i`
      and of the children after it. */
  lemma ChildRecordsFrom(h: Hooks, s: Disk, cache: Path, owner: Node, scope: Location, i: nat)
    requires i < Size(owner) && ChildRecordAt(h, s, cache, owner, scope, i)
    requires forall j | i + 1 <= j < Size(owner) :: ChildRecordAt(h, s, cache, owner, scope, j)
    ensures forall j | i <= j < Size(owner) :: ChildRecordAt(h, s, cache, owner, scope, j)
  {
  }

  /** The record the save of the child at position `i` writes is still there
      once the children after it are saved. */
  lemma FirstChildRecordKept(h: Hooks, d: Disk, cache: Path, owner: Node, scope: Location, i: nat, c: Node)
    requires PlacesChildBelowParent(h) && WellFormed(owner) && i < Size(owner)
    requires Len(scope) == Depth(KindOf(owner)) && SublocationValues(owner)[i] == Child(c)
    requires SaveChildren(h, d, cache, owner, scope, i).Done?
    requires SaveDc(h, d, cache, c, scope, true).Done?
    requires SaveChildren(h, d, cache, owner, scope, i) ==
             SaveChildren(h, SaveDc(h, d, cache, c, scope, true).state, cache, owner, scope, i + 1)
    ensures ChildRecordAt(h, SaveChildren(h, d, cache, owner, scope, i).state, cache, owner, scope, i)
  {
    ChildOfWellFormed(owner, i);
    ChildFolder(h, cache, scope, c);
    SaveWritesRecord(h, d, cache, c, scope, true);
    LaterChildrenKeepRecord(h, SaveDc(h, d, cache, c, scope, true).state, cache, owner, scope, i);
  }

  /** A completed save of the children from position `i` on, when there is
      one there, found a child at `i`, saved it completely, and went on from
      the disk that save left. */
  lemma SaveChildrenStep(h: Hooks, d: Disk, cache: Path, owner: Node, scope: Location, i: nat) returns (c: Node)
    requires i < Size(owner) && SaveChildren(h, d, cache, owner, scope, i).Done?
    ensures SublocationValues(owner)[i] == Child(c)
    ensures SaveDc(h, d, cache, c, scope, true).Done?
    ensures SaveChildren(h, d, cache, owner, scope, i) ==
            SaveChildren(h, SaveDc(h, d, cache, c, scope, true).state, cache, owner, scope, i + 1)
  {
    c := SublocationValues(owner)[i].node;
  }

  /** The children saved after the one at position `i` leave its record
      alone: their folders are siblings of its folder. */
  lemma LaterChildrenKeepRecord(h: Hooks, s1: Disk, cache: Path, owner: Node, scope: Location, i: nat)
    requires PlacesChildBelowParent(h) && WellFormed(owner) && i < Size(owner)
    requires Len(scope) == Depth(KindOf(owner)) && SublocationValues(owner)[i].Child?
    requires SaveChildren(h, s1, cache, owner, scope, i + 1).Done?
    requires var rec := RecordPath(cache, PatchScope(h, SublocationValues(owner)[i].node, scope));
             rec in s1.files && s1.files[rec] == Record(h.empty(SublocationValues(owner)[i].node))
    ensures var rec := RecordPath(cache, PatchScope(h, SublocationValues(owner)[i].node, scope));
            var s := SaveChildren(h, s1, cache, owner, scope, i + 1).state;
            rec in s.files && s.files[rec] == Record(h.empty(SublocationValues(owner)[i].node))
  {
    var rec := RecordPath(cache, PatchScope(h, SublocationValues(owner)[i].node, scope));
    LaterSiblingsAvoidRecord(h, cache, owner, scope, i);
    SaveChildrenKeepOutside(h, s1, cache, owner, scope, i + 1, rec);
  }

  /** The record of the child at position `i` lies below none of the folders
      of the children after it. */
  lemma LaterSiblingsAvoidRecord(h: Hooks, cache: Path, owner: Node, scope: Location, i: nat)
    requires PlacesChildBelowParent(h) && WellFormed(owner) && i < Size(owner)
    requires Len(scope) == Depth(KindOf(owner)) && SublocationValues(owner)[i].Child?
    ensures forall j | i + 1 <= j < Size(owner) :: SublocationValues(owner)[j].Child? ==>
              !Below(Folder(cache, scope) + [Delim + Str(Id(SublocationValues(owner)[j].node))],
                     RecordPath(cache, PatchScope(h, SublocationValues(owner)[i].node, scope)))
  {
    forall j | i + 1 <= j < Size(owner) && SublocationValues(owner)[j].Child?
      ensures !Below(Folder(cache, scope) + [Delim + Str(Id(SublocationValues(owner)[j].node))],
                     RecordPath(cache, PatchScope(h, SublocationValues(owner)[i].node, scope)))
    {
      ChildOfWellFormed(owner, j);
      SiblingAvoidsRecord(h, cache, owner, scope, i, j, SublocationValues(owner)[i].node, SublocationValues(owner)[j].node);
    }
  }

  /** The record of one child, `a`, lies outside the folder of another, `b`. */
  lemma SiblingAvoidsRecord(h: Hooks, cache: Path, owner: Node, scope: Location, i: nat, j: nat, a: Node, b: Node)
    requires PlacesChildBelowParent(h) && WellFormed(owner) && i < Size(owner) && j < Size(owner) && i != j
    requires Len(scope) == Depth(KindOf(owner)) && !b.Root?
    requires SublocationValues(owner)[i] == Child(a) && SublocationValues(owner)[j] == Child(b)
    ensures !Below(Folder(cache, scope) + [Delim + Str(Id(b))], RecordPath(cache, PatchScope(h, a, scope)))
  {
    ChildOfWellFormed(owner, i);
    ChildFolder(h, cache, scope, a);
    ChildSegmentsDistinct(owner, i, j);
    SiblingNotBelow(Folder(cache, scope), Str(Id(a)), Str(Id(b)), MetadataFile);
  }

  /** A file in one child folder is not below a sibling folder. */
  lemma SiblingNotBelow(folder: Path, x: string, y: string, name: string)
    requires x != y
    ensures !Below(folder + [Delim + y], folder + [Delim + x] + [name])
  {
    var f := folder + [Delim + x] + [name];
    assert f[|folder|] == Delim + x;
    assert (Delim + x)[|Delim|..] == x && (Delim + y)[|Delim|..] == y;
  }

  /** A completed deep save of a node with sub-dataclasses finds a child at
      every position and leaves each child's record, without its own
      children, at the scope below the node's own that the child is placed
      at. */
  lemma SaveDeepWritesChildren(h: Hooks, d: Disk, cache: Path, dc: Node, scope: Location)
    requires PlacesChildBelowParent(h) && WellFormed(dc) && h.hasSublocationDataclasses(dc)
    requires Len(PatchScope(h, dc, scope)) == Depth(KindOf(dc))
    requires SaveDc(h, d, cache, dc, scope, true).Done?
    ensures var p := PatchScope(h, dc, scope);
            var s := SaveDc(h, d, cache, dc, scope, true).state;
            forall i | 0 <= i < Size(dc) ::
              && SublocationValues(dc)[i].Child?
              && RecordPath(cache, PatchScope(h, SublocationValues(dc)[i].node, p)) in s.files
              && s.files[RecordPath(cache, PatchScope(h, SublocationValues(dc)[i].node, p))]
                 == Record(h.empty(SublocationValues(dc)[i].node))
  {
    var p := PatchScope(h, dc, scope);
    var folder := Folder(cache, p);
    var written := Write(MakeDirs(d, folder), folder, MetadataFile, Record(h.empty(dc)));
    assert SaveDc(h, d, cache, dc, scope, true) == SaveChildren(h, written, cache, dc, p, 0);
    SaveChildrenWriteRecords(h, written, cache, dc, p, 0);
    var s := SaveChildren(h, written, cache, dc, p, 0).state;
    forall i | 0 <= i < Size(dc)
      ensures && SublocationValues(dc)[i].Child?
              && RecordPath(cache, PatchScope(h, SublocationValues(dc)[i].node, p)) in s.files
              && s.files[RecordPath(cache, PatchScope(h, SublocationValues(dc)[i].node, p))]
                 == Record(h.empty(SublocationValues(dc)[i].node))
    {
      assert ChildRecordAt(h, s, cache, dc, p, i);
    }
  }

  /** Saving a node whose first child is a placeholder truncates the node's
      own record, which no longer parses, and raises `AttributeError`. */
  lemma PlaceholderTruncatesRecord(h: Hooks, d: Disk, cache: Path, dc: Node, scope: Location)
    requires h.hasSublocationDataclasses(dc) && Size(dc) > 0 && SublocationValues(dc)[0].Unset?
    ensures var p := PatchScope(h, dc, scope);
            var r := SaveDc(h, d, cache, dc, scope, true);
            r.Raised? && r.error == AttributeError && RecordPath(cache, p) in r.state.files
            && r.state.files[RecordPath(cache, p)] == Malformed("")
  {
    var p := PatchScope(h, dc, scope);
    var folder := Folder(cache, p);
    var written := Write(MakeDirs(d, folder), folder, MetadataFile, Record(h.empty(dc)));
    assert SaveDc(h, d, cache, dc, scope, true) == SaveChildren(h, written, cache, dc, p, 0);
  }

  /** `is_locking_required`: the on-disk repository always asks for locks. */
  function IsLockingRequired(): (r: bool)
    ensures r
  {
    true
  }

  /** The repository: its cache folder and the disk under it. */
  datatype Repo = Repo(cacheFolder: Path, disk: Disk)

  /** The constructor: a deep save of `RootDataclass()` at the empty scope.
      Without a cache folder `os.path.join` raises `TypeError`. */
  function Init(h: Hooks, cacheFolder: Option<Path>, d: Disk): (r: Result<Repo>)
    ensures cacheFolder.None? ==> r == Err(TypeError)
    ensures r.Ok? ==> r.value.cacheFolder == cacheFolder.value
  {
    match cacheFolder
    case None => Err(TypeError)
    case Some(cache) =>
      match SaveDc(h, d, cache, DefaultRoot, Empty, true)
      case Raised(_, e) => Err(e)
      case Done(s) => Ok(Repo(cache, s))
  }

  /** A constructed repository holds the root's record in the cache folder. */
  lemma InitWritesRootRecord(h: Hooks, cache: Path, d: Disk)
    requires PlacesChildBelowParent(h) && Init(h, Some(cache), d).Ok?
    ensures var files := Init(h, Some(cache), d).value.disk.files;
            cache + [MetadataFile] in files && files[cache + [MetadataFile]] == Record(h.empty(DefaultRoot))
  {
    DefaultRootWellFormed();
    assert Len(Empty) == 0;
    assert Folder(cache, Empty) == cache;
    SaveWritesRecord(h, d, cache, DefaultRoot, Empty, true);
  }
}
