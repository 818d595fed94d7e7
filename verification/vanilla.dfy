/** `VanillaHyperparamsRepository`: the in-memory repository, a cache folder
    and one Root tree. `load` looks a scope up and answers a missing address
    with a stub; `save` validates the scope against the node, finds the
    parent and stores the node into it. */
module Vanilla {
  import opened Errors
  import opened Kinds
  import opened Nodes
  import opened Locations
  import opened Tree

  datatype Repo = Repo(cacheFolder: Path, root: Node)

  /** A repository whose root is a Root node and a well-formed tree. */
  predicate Valid(repo: Repo) {
    KindOf(repo.root) == RootKind && WellFormed(repo.root)
  }

  /** The constructor: the cache folder gains the class name, the root is
      `RootDataclass()`. */
  function Init(cacheFolder: Path): (r: Repo)
    ensures r.cacheFolder == cacheFolder + ["VanillaHyperparamsRepository"]
    ensures Valid(r)
    ensures Lookup(r.root, Location([Some(AStr(DefaultProjectName)), Some(AStr(DefaultClientName)),
                                     None, None, None, None])) == Ok(DefaultClient)
  {
    DefaultRootWellFormed();
    Repo(cacheFolder + ["VanillaHyperparamsRepository"], DefaultRoot)
  }

  /** `load(scope, deep)`: the node at the scope, shallowed unless `deep`; a
      `KeyError` on the way gives the stub `new_dataclass_from_id()` builds
      as written, any other failure propagates. */
  function Load(repo: Repo, scope: Location, deep: bool): (r: Result<Node>)
    ensures Lookup(repo.root, scope) == Err(KeyError) ==> r == NewDataclassFromIdAsWritten(scope)
    ensures Lookup(repo.root, scope).Err? && Lookup(repo.root, scope).error != KeyError ==>
              r == Lookup(repo.root, scope)
    ensures Lookup(repo.root, scope).Ok? && deep ==> r == Lookup(repo.root, scope)
    ensures Lookup(repo.root, scope).Ok? && !deep ==>
              r == Shallow(Lookup(repo.root, scope).value)
    ensures r.Err? ==> r.error == TypeError || r.error == IndexError || r.error == ValueError(NonStringKey)
    ensures repo.root.Root? && r.Err? ==> r.error == TypeError || r.error == ValueError(NonStringKey)
  {
    match Lookup(repo.root, scope)
    case Ok(n) => if deep then Ok(n) else Shallow(n)
    case Err(e) =>
      if e != KeyError then Err(e)
      else
        RootMissesBelowProject(repo.root, scope);
        NewDataclassFromIdAsWritten(scope)
  }

  /** From a Root tree, a lookup that misses a key has gone past the project
      coordinate, so the location is not empty. */
  lemma RootMissesBelowProject(root: Node, scope: Location)
    requires Lookup(root, scope) == Err(KeyError)
    ensures root.Root? ==> Len(scope) > 0
  {
  }

  /** What `load` returns from a valid repository sits at the scope's depth.
      A node found there carries the scope's last coordinate as its id, and so
      does a stub above trial depth; a trial or split stub is numbered 0. */
  lemma LoadAddresses(repo: Repo, scope: Location, deep: bool)
    requires Valid(repo) && Load(repo, scope, deep).Ok?
    ensures Depth(KindOf(Load(repo, scope, deep).value)) == Len(scope)
    ensures Len(scope) > 0 && (Lookup(repo.root, scope).Ok? || Len(scope) < 4 || Len(scope) == 6) ==>
              GetId(Load(repo, scope, deep).value) == Some(AsList(scope)[Len(scope) - 1])
    ensures Lookup(repo.root, scope).Err? && (Len(scope) == 4 || Len(scope) == 5) ==>
              GetId(Load(repo, scope, deep).value) == Some(AInt(0))
  {
    if Lookup(repo.root, scope).Ok? {
      LookupAddresses(repo.root, scope);
      if !deep {
        BareKindAndId(Load(repo, scope, deep).value, Lookup(repo.root, scope).value);
      }
    } else {
      assert Load(repo, scope, deep) == NewDataclassFromIdAsWritten(scope);
      StubAddresses(scope);
    }
  }

  /** The stub `new_dataclass_from_id()` builds as written sits at the
      location's depth, with the last coordinate as id except at trial and
      split depth, where it is numbered 0. */
  lemma StubAddresses(l: Location)
    requires NewDataclassFromIdAsWritten(l).Ok?
    ensures var n := NewDataclassFromIdAsWritten(l).value;
            && Depth(KindOf(n)) == Len(l)
            && (Len(l) != 4 && Len(l) != 5 ==> GetId(n) == Some(AsList(l)[Len(l) - 1]))
            && (Len(l) == 4 || Len(l) == 5 ==> GetId(n) == Some(AInt(0)))
  {
  }

  /** As written, loading a trial that was never saved gives trial 0: the
      stub for trial 5 of the default client's round 0 is numbered 0. */
  lemma MissingTrialLoadsTrialZero()
    ensures var r := Load(Init([]), ClientTrialScope, false);
            r.Ok? && KindOf(r.value) == TrialKind && GetId(r.value) == Some(AInt(0))
  {
    var l := ClientTrialScope;
    assert Len(l) == 4 by {
      PrefixFromFields(l, [AStr(DefaultProjectName), AStr(DefaultClientName), AInt(0), AInt(5)], 0);
    }
    assert Lookup(Init([]).root, l) == Err(KeyError) by {
      ClientLookupMissesRound(l);
    }
  }

  /** The location of the parent `save` stores into: the scope sliced to the
      node's type, then its coordinate popped when it was set. It is a
      gap-free leading part of the scope that stops above the node's level. */
  function ParentScope(scope: Location, dc: Node): (r: Location)
    ensures dc.Root? ==> r == Empty
    ensures Canonical(r) && Len(r) <= Len(scope) && AsList(r) == AsList(scope)[..Len(r)]
    ensures !dc.Root? ==> Len(r) < Depth(KindOf(dc))
  {
    var sliced := SliceTo(scope, KindOf(dc));
    if !dc.Root? && Coordinate(scope, KindOf(dc)).Some? then
      PopOfSlice(scope, KindOf(dc));
      Pop(sliced).1
    else sliced
  }

  /** Popping a scope sliced to a node type leaves a gap-free leading part of
      the scope above that type's level. */
  lemma PopOfSlice(scope: Location, k: Kind)
    requires k != RootKind
    ensures var r := Pop(SliceTo(scope, k)).1;
            Canonical(r) && Len(r) <= Len(scope) && AsList(r) == AsList(scope)[..Len(r)] && Len(r) < Depth(k)
  {
    PopOfPrefix(SliceTo(scope, k), AsList(scope), SliceEnd(Len(scope), Depth(k)));
  }

  /** Popping a canonical location that lists the first `e` coordinates of
      `xs` lists one fewer of them, none when there were none. */
  lemma PopOfPrefix(l: Location, xs: seq<Attr>, e: nat)
    requires Canonical(l) && e <= |xs| && AsList(l) == xs[..e]
    ensures var r := Pop(l).1;
            Canonical(r) && AsList(r) == xs[..Len(r)] && (if e == 0 then Len(r) == 0 else Len(r) == e - 1)
  {
    if e > 0 {
      PopOfCanonical(l);
      assert xs[..e][..e - 1] == xs[..e - 1];
    } else {
      PopOfBlank(l);
    }
  }

  /** Popping a canonical location drops its last coordinate. */
  lemma PopOfCanonical(l: Location)
    requires Canonical(l) && Len(l) > 0
    ensures Canonical(Pop(l).1) && AsList(Pop(l).1) == AsList(l)[..Len(l) - 1]
  {
    PopIsPeekAndPopped(l);
  }

  /** Popping a location with nothing set leaves it as it is. */
  lemma PopOfBlank(l: Location)
    requires Canonical(l) && Len(l) == 0
    ensures Pop(l).1 == l
  {
    FieldsDetermineLocation(l, Empty);
  }

  /** The node `save` stores, given the children `load` finds at its address
      when `deep` is false: the node's own fields over those children. */
  function Reattached(repo: Repo, dc: Node, parent: Location, deep: bool): (r: Result<Node>)
    ensures deep ==> r == Ok(dc)
    ensures r.Ok? ==> Bare(r.value) == Bare(dc)
    ensures !deep && dc.Root? ==> r == SetSublocation(dc, GetSublocation(repo.root))
    ensures !deep && !dc.Root? && IdIndex(KindOf(dc)).value != Len(parent) ==> r == Err(TypeError)
  {
    if deep then Ok(dc)
    else if dc.Root? then SetSublocation(dc, GetSublocation(repo.root))
    else
      var at :- WithDcAsWritten(parent, dc);
      var prev :- Load(repo, at, true);
      SetSublocation(dc, GetSublocation(prev))
  }

  /** The last step of `save` for a non-root node: store it into the node at
      the parent location. The lookup's failure leaves the repository as it
      was; a rejected map store leaves its insertion behind. */
  function StoreAt(repo: Repo, parent: Location, node: Node): (r: Outcome<Repo>)
    requires !node.Root?
    ensures r.state.cacheFolder == repo.cacheFolder
    ensures Lookup(repo.root, parent).Err? ==> r == Raised(repo, Lookup(repo.root, parent).error)
    ensures r.Raised? && r.state != repo ==>
              r.error.ValueError? && (r.error.reason == NonStringKey || r.error.reason == WrongChildType)
  {
    match Lookup(repo.root, parent)
    case Err(e) => Raised(repo, e)
    case Ok(target) =>
      var stored := Store(target, node);
      var root := ReplaceAt(repo.root, parent, stored.node);
      match stored.result
      case Ok(_) => Done(repo.(root := root))
      case Err(e) =>
        ReplaceAtSelf(repo.root, parent);
        Raised(repo.(root := root), e)
  }

  /** `save(dc, scope, deep)`. The scope's coordinate for the node's type, when
      set, must equal the node's id; when unset the sliced scope must have the
      length of the node's depth. A Root node replaces the tree; any other node
      is stored into the node at the parent location. */
  function Save(repo: Repo, dc: Node, scope: Location, deep: bool): (r: Outcome<Repo>)
    ensures r.state.cacheFolder == repo.cacheFolder
    ensures !dc.Root? && Coordinate(scope, KindOf(dc)).Some? && Coordinate(scope, KindOf(dc)).value != Id(dc) ==>
              r == Raised(repo, ValueError(IdMismatch))
    ensures dc.Root? && deep ==> r == Done(repo.(root := dc))
    ensures r.Raised? && r.state != repo ==>
              r.error.ValueError? && (r.error.reason == NonStringKey || r.error.reason == WrongChildType)
  {
    var id := if dc.Root? then None else Coordinate(scope, KindOf(dc));
    if id.Some? && id.value != Id(dc) then Raised(repo, ValueError(IdMismatch))
    else if id.None? && Len(SliceTo(scope, KindOf(dc))) != Depth(KindOf(dc)) then Raised(repo, ValueError(ScopeLength))
    else
      match Reattached(repo, dc, ParentScope(scope, dc), deep)
      case Err(e) => Raised(repo, e)
      case Ok(node) => if node.Root? then Done(repo.(root := node)) else StoreAt(repo, ParentScope(scope, dc), node)
  }

  /** The length check of `save` only ever admits Root: a non-root node whose
      coordinate is unset in the scope is always rejected, the repository
      unchanged. */
  lemma UnsetCoordinateRejected(repo: Repo, dc: Node, scope: Location, deep: bool)
    requires !dc.Root? && Coordinate(scope, KindOf(dc)).None?
    ensures Save(repo, dc, scope, deep) == Raised(repo, ValueError(ScopeLength))
  {
    var d := Depth(KindOf(dc));
    assert IdIndex(KindOf(dc)).value == d - 1;
    assert Len(scope) < d;
    assert Len(SliceTo(scope, KindOf(dc))) < d;
  }

  /** The scope reaches the node's own level with no gap before it. */
  predicate Reaches(scope: Location, dc: Node) {
    dc.Root? || Len(scope) >= Depth(KindOf(dc))
  }

  /** A non-negative id when the id is a number: list stores file it under itself. */
  predicate NonNegativeId(dc: Node) {
    dc.Root? || (Id(dc).AInt? ==> Id(dc).i >= 0)
  }

  /** On a scope that reaches the node's level, the parent location is the
      sliced scope without its last coordinate, at the parent's depth. */
  lemma ParentScopeShape(scope: Location, dc: Node)
    requires !dc.Root? && Reaches(scope, dc) && Coordinate(scope, KindOf(dc)) == Some(Id(dc))
    ensures var sliced := SliceTo(scope, KindOf(dc));
            Len(sliced) == Depth(KindOf(dc)) && ParentScope(scope, dc) == Popped(sliced)
            && Len(ParentScope(scope, dc)) == Depth(KindOf(dc)) - 1
            && AgreeBelow(ParentScope(scope, dc), sliced, Len(ParentScope(scope, dc)))
            && Coordinate(sliced, KindOf(dc)) == Coordinate(scope, KindOf(dc))
            && WithDc(ParentScope(scope, dc), dc) == Ok(sliced)
  {
    var k := KindOf(dc);
    var sliced := SliceTo(scope, k);
    SlicedReaches(scope, dc);
    PopIsPeekAndPopped(sliced);
    PoppedAgrees(sliced);
    WithDcOfPopped(sliced, dc);
  }

  /** Slicing a scope that reaches the node's level keeps exactly the
      coordinates up to it. */
  lemma SlicedReaches(scope: Location, dc: Node)
    requires !dc.Root? && Reaches(scope, dc)
    ensures var sliced := SliceTo(scope, KindOf(dc));
            Len(sliced) == Depth(KindOf(dc)) && Canonical(sliced)
            && Coordinate(sliced, KindOf(dc)) == Coordinate(scope, KindOf(dc))
  {
    var k := KindOf(dc);
    var sliced := SliceTo(scope, k);
    assert AsList(sliced) == AsList(scope)[..Depth(k)];
    assert Field(sliced, Depth(k) - 1) == Some(AsList(scope)[Depth(k) - 1]);
  }

  /** A popped location agrees with the original below its own length. */
  lemma PoppedAgrees(l: Location)
    requires Len(l) > 0
    ensures Len(Popped(l)) == Len(l) - 1 && AgreeBelow(Popped(l), l, Len(Popped(l)))
  {
    var p := Popped(l);
    assert AsList(p) == AsList(l)[..Len(l) - 1];
    assert forall j | 0 <= j < Len(p) :: Field(p, j) == Some(AsList(l)[j]);
  }

  /** Re-adding the node to its parent location rebuilds the sliced scope. */
  lemma WithDcOfPopped(sliced: Location, dc: Node)
    requires !dc.Root? && Canonical(sliced) && Len(sliced) == Depth(KindOf(dc))
    requires Coordinate(sliced, KindOf(dc)) == Some(Id(dc))
    ensures WithDc(Popped(sliced), dc) == Ok(sliced)
  {
    var p := Popped(sliced);
    var w := WithDc(p, dc);
    assert AsList(w.value) == AsList(sliced);
    FromListAsList(w.value);
    FromListAsList(sliced);
  }

  /** Lookup in a stored parent, at the sliced scope, finds the stored node. */
  lemma FindStored(target: Node, node: Node, sliced: Location)
    requires !node.Root? && Store(target, node).result.Ok? && NonNegativeId(node)
    requires Depth(KindOf(node)) == Depth(KindOf(target)) + 1 && Len(sliced) == Depth(KindOf(node))
    requires Coordinate(sliced, KindOf(node)) == Some(Id(node))
    ensures Lookup(Store(target, node).node, sliced) == Ok(node)
  {
    var st := Store(target, node).node;
    StoreFiles(target, node);
    assert KindOf(target) != MetricKind;
    assert SubKind(KindOf(st)) == Some(KindOf(node));
    LookupDescends(st, sliced);
    if KindOf(node) != MetricKind {
      assert IdIndex(SubKind(KindOf(node)).value).value == Len(sliced);
    }
  }

  /** A deep save followed by a deep load at the node's address gives the
      node back. */
  lemma DeepSaveThenLoad(repo: Repo, dc: Node, scope: Location)
    requires Valid(repo) && !dc.Root? && Reaches(scope, dc) && NonNegativeId(dc)
    requires Save(repo, dc, scope, true).Done?
    ensures Load(Save(repo, dc, scope, true).state, SliceTo(scope, KindOf(dc)), true) == Ok(dc)
  {
    if Coordinate(scope, KindOf(dc)).None? {
      UnsetCoordinateRejected(repo, dc, scope, true);
    }
    var sliced := SliceTo(scope, KindOf(dc));
    var parent := ParentScope(scope, dc);
    ParentScopeShape(scope, dc);
    var target := Lookup(repo.root, parent).value;
    LookupAddresses(repo.root, parent);
    FindStored(target, dc, sliced);
    LookupThroughReplaced(repo.root, parent, Store(target, dc).node, sliced);
  }

  /** A shallow save keeps what was stored below the address: the node found
      there afterwards has the saved node's own fields over the children a
      deep load found there before. */
  lemma ShallowSaveReattaches(repo: Repo, dc: Node, scope: Location)
    requires Valid(repo) && !dc.Root? && Reaches(scope, dc) && NonNegativeId(dc)
    requires Save(repo, dc, scope, false).Done?
    ensures var sliced := SliceTo(scope, KindOf(dc));
            Load(repo, sliced, true).Ok? &&
            var x := Lookup(Save(repo, dc, scope, false).state.root, sliced);
            x.Ok? && Bare(x.value) == Bare(dc) && GetSublocation(x.value) == GetSublocation(Load(repo, sliced, true).value)
  {
    if Coordinate(scope, KindOf(dc)).None? {
      UnsetCoordinateRejected(repo, dc, scope, false);
    }
    var sliced := SliceTo(scope, KindOf(dc));
    var parent := ParentScope(scope, dc);
    ParentScopeShape(scope, dc);
    var node := Reattached(repo, dc, parent, false).value;
    BareKindAndId(node, dc);
    var target := Lookup(repo.root, parent).value;
    LookupAddresses(repo.root, parent);
    FindStored(target, node, sliced);
    LookupThroughReplaced(repo.root, parent, Store(target, node).node, sliced);
  }

  /** Storing a well-formed node of the parent location's child type, with
      a non-negative id, keeps the repository valid. */
  lemma StoreAtPreservesValid(repo: Repo, parent: Location, node: Node)
    requires Valid(repo) && !node.Root? && WellFormed(node) && NonNegativeId(node)
    requires Len(parent) + 1 == Depth(KindOf(node))
    requires StoreAt(repo, parent, node).Done?
    ensures Valid(StoreAt(repo, parent, node).state)
  {
    var target := Lookup(repo.root, parent).value;
    LookupAddresses(repo.root, parent);
    LookupWellFormed(repo.root, parent);
    assert SubKind(KindOf(target)) == Some(KindOf(node));
    var st := Store(target, node);
    assert st.result.Ok?;
    StoreOkWellFormed(target, node);
    ReplaceAtPreservesWellFormed(repo.root, parent, st.node);
    ReplaceAtKeepsKindAndId(repo.root, parent, st.node);
  }

  /** A store the node accepted, of a well-formed child with a non-negative
      id, leaves it well formed and of the same type and id. */
  lemma StoreOkWellFormed(target: Node, node: Node)
    requires WellFormed(target) && WellFormed(node) && !node.Root? && NonNegativeId(node)
    requires SubKind(KindOf(target)) == Some(KindOf(node))
    requires Store(target, node).result.Ok?
    ensures WellFormed(Store(target, node).node)
    ensures KindOf(Store(target, node).node) == KindOf(target) && GetId(Store(target, node).node) == GetId(target)
  {
    var st := Store(target, node);
    if IsMapKind(KindOf(target)) {
      var i := SlotAtIsValue(st.node, Id(node));
      assert KeysAreStrings(st.node);
    }
    StorePreservesWellFormed(target, node);
    BareKindAndId(st.node, target);
  }

  /** Saving a well-formed node (any node, when shallow) at a scope that
      reaches its level, with a non-negative id, keeps the repository valid. */
  lemma SavePreservesValid(repo: Repo, dc: Node, scope: Location, deep: bool)
    requires Valid(repo) && Reaches(scope, dc) && NonNegativeId(dc)
    requires deep ==> WellFormed(dc)
    requires Save(repo, dc, scope, deep).Done?
    ensures Valid(Save(repo, dc, scope, deep).state)
  {
    var parent := ParentScope(scope, dc);
    var node := Reattached(repo, dc, parent, deep).value;
    BareKindAndId(node, dc);
    if dc.Root? {
      if !deep {
        SameShapeWellFormed(node, repo.root);
      }
    } else {
      if Coordinate(scope, KindOf(dc)).None? {
        UnsetCoordinateRejected(repo, dc, scope, deep);
      }
      ParentScopeShape(scope, dc);
      if !deep {
        var at := WithDcAsWritten(parent, dc).value;
        LoadAddresses(repo, at, true);
        LoadWellFormed(repo, at);
        SameShapeWellFormed(node, Load(repo, at, true).value);
      }
      StoreAtPreservesValid(repo, parent, node);
    }
  }

  /** What a deep load returns from a valid repository is well formed. */
  lemma LoadWellFormed(repo: Repo, scope: Location)
    requires Valid(repo) && Load(repo, scope, true).Ok?
    ensures WellFormed(Load(repo, scope, true).value)
  {
    if Lookup(repo.root, scope).Ok? {
      LookupWellFormed(repo.root, scope);
    } else {
      var xs := AsList(scope);
      if |xs| == 4 || |xs| == 5 {
        assert ShapeOk(Load(repo, scope, true).value);
      } else {
        IdKindAt(|xs| - 1);
        StubWellFormed(IdKinds[|xs| - 1], xs[|xs| - 1]);
      }
    }
  }

  /** `from_root`: a fresh repository over the given tree. */
  function FromRoot(root: Node, cacheFolder: Path): (r: Repo)
    requires KindOf(root) == RootKind
    ensures r.root == root && r.cacheFolder == Init(cacheFolder).cacheFolder
  {
    var repo := Init(cacheFolder);
    assert root.Root?;
    Save(repo, root, Empty, true).state
  }

  /** `get_scoped_path`: the cache folder, then one segment per set coordinate. */
  function ScopedPath(repo: Repo, scope: Location): (r: Path)
    ensures |r| == |repo.cacheFolder| + Len(scope) && r[..|repo.cacheFolder|] == repo.cacheFolder
    ensures forall j | 0 <= j < Len(scope) :: r[|repo.cacheFolder| + j] == Str(AsList(scope)[j])
  {
    repo.cacheFolder + AsStrings(scope)
  }

  /** `get_scoped_logger_path`: `log.txt` inside the scoped path. */
  function LoggerPath(repo: Repo, scope: Location): (r: Path)
    ensures |r| == |repo.cacheFolder| + Len(scope) + 1 && r[..|repo.cacheFolder|] == repo.cacheFolder
    ensures forall j | 0 <= j < Len(scope) :: r[|repo.cacheFolder| + j] == Str(AsList(scope)[j])
    ensures r[|r| - 1] == "log.txt"
  {
    ScopedPath(repo, scope) + ["log.txt"]
  }

  /** In memory the segments carry no delimiter, so a scope's log file is
      the scoped path of the child location whose id is `"log.txt"`. */
  lemma LoggerPathIsChildScopedPath(repo: Repo, scope: Location)
    requires Len(scope) < 6
    ensures LoggerPath(repo, scope) == ScopedPath(repo, WithId(scope, AStr("log.txt")).value)
  {
    ScopedPathWithId(repo, scope, AStr("log.txt"));
  }

  /** The scoped path of a child location extends its parent's by one segment. */
  lemma ScopedPathWithId(repo: Repo, scope: Location, x: Attr)
    requires Len(scope) < 6
    ensures ScopedPath(repo, WithId(scope, x).value) == ScopedPath(repo, scope) + [Str(x)]
  {
    var w := WithId(scope, x).value;
    StringsOfExtended(scope, w, x);
  }

  /** Extending a location by one coordinate extends its strings by one. */
  lemma StringsOfExtended(scope: Location, w: Location, x: Attr)
    requires AsList(w) == AsList(scope) + [x]
    ensures AsStrings(w) == AsStrings(scope) + [Str(x)]
  {
    var a := AsStrings(w);
    var b := AsStrings(scope) + [Str(x)];
    assert |a| == |b|;
    forall j | 0 <= j < |a| ensures a[j] == b[j] {
      if j < Len(scope) {
        assert AsList(w)[j] == AsList(scope)[j];
      }
    }
  }

  /** The parent location `save` computes for a split node at the gapped
      scope (project, client, round 0, no trial, split 0): the client. */
  lemma GappedParentScope()
    ensures ParentScope(GappedScope, GappedSplit) == ClientScope
  {
    var pc := [AStr(DefaultProjectName), AStr(DefaultClientName)];
    PrefixFromFields(GappedScope, pc + [AInt(0)], 0);
    GappedParentDropsLast(GappedScope, GappedSplit);
    var parent := ParentScope(GappedScope, GappedSplit);
    assert AsList(parent) == pc;
    ClientScopeIsList();
    FromListAsList(parent);
  }

  /** On a scope that stops short of the node's level but sets the node's
      own coordinate, the parent location is the prefix without its last
      coordinate: one level above the node's real parent. */
  lemma GappedParentDropsLast(scope: Location, dc: Node)
    requires !dc.Root? && 0 < Len(scope) < Depth(KindOf(dc)) && Coordinate(scope, KindOf(dc)).Some?
    ensures Canonical(ParentScope(scope, dc))
    ensures AsList(ParentScope(scope, dc)) == AsList(scope)[..Len(scope) - 1]
  {
    var sliced := SliceTo(scope, KindOf(dc));
    assert AsList(sliced) == AsList(scope);
    PopIsPeekAndPopped(sliced);
  }

  lemma ClientScopeIsList()
    ensures FromList([AStr(DefaultProjectName), AStr(DefaultClientName)]) == Ok(ClientScope)
  {
    PrefixFromFields(ClientScope, [AStr(DefaultProjectName), AStr(DefaultClientName)], 0);
    FromListAsList(ClientScope);
  }

  const GappedScope := Location([Some(AStr(DefaultProjectName)), Some(AStr(DefaultClientName)),
                                 Some(AInt(0)), None, Some(AInt(0)), None])
  const GappedSplit := TrialSplit(AInt(0), FreshInfo, [])
  const ClientScope := Location([Some(AStr(DefaultProjectName)), Some(AStr(DefaultClientName)),
                                 None, None, None, None])
  const FirstRoundScope := Location([Some(AStr(DefaultProjectName)), Some(AStr(DefaultClientName)),
                                     Some(AInt(0)), None, None, None])
  const ClientTrialScope := Location([Some(AStr(DefaultProjectName)), Some(AStr(DefaultClientName)),
                                      Some(AInt(0)), Some(AInt(5)), None, None])
  const ProjectTrialScope := Location([Some(AStr(DefaultProjectName)), None, Some(AInt(0)), Some(AInt(5)), None, None])
  const TrialFive := Trial(AInt(5), FreshInfo, [])

  /** In the default tree the default client has no round, so looking up
      any round below it raises `KeyError`. */
  lemma ClientLookupMissesRound(l: Location)
    requires l == ClientTrialScope
    ensures Lookup(Init([]).root, l) == Err(KeyError)
  {
    var root := Init([]).root;
    assert Coordinate(l, ProjectKind) == Some(AStr(DefaultProjectName));
    assert SublocationKeys(root) == [AStr(DefaultProjectName)];
    LookupDescends(root, l);
    assert Coordinate(l, ClientKind) == Some(AStr(DefaultClientName));
    assert SublocationKeys(DefaultProject) == [AStr(DefaultClientName)];
    LookupDescends(DefaultProject, l);
    assert Coordinate(l, RoundKind) == Some(AInt(0));
    assert SublocationKeys(DefaultClient) == [];
  }

  /** As written, a shallow save whose scope skips the client raises
      `TypeError`: the parent location is empty, so `with_dc` of the trial
      sets a coordinate out of order and `__setitem__` fails building its
      message. */
  lemma GappedShallowSaveRaisesTypeError()
    ensures Save(Init([]), TrialFive, ProjectTrialScope, false) == Raised(Init([]), TypeError)
  {
    var l := ProjectTrialScope;
    assert Coordinate(l, TrialKind) == Some(AInt(5));
    assert Len(l) == 1 by {
      PrefixFromFields(l, [AStr(DefaultProjectName)], 0);
    }
    var sliced := SliceTo(l, TrialKind);
    assert Len(sliced) == 1;
    PopIsPeekAndPopped(sliced);
    assert Len(ParentScope(l, TrialFive)) == 0;
  }

  /** A deep save of a non-root node whose coordinate is its id stores the
      node itself into the parent location. */
  lemma DeepSaveStores(repo: Repo, dc: Node, scope: Location)
    requires !dc.Root? && Coordinate(scope, KindOf(dc)) == Some(Id(dc))
    ensures Save(repo, dc, scope, true) == StoreAt(repo, ParentScope(scope, dc), dc)
  {
  }

  /** A store the parent accepts commits the replaced tree. */
  lemma StoreAtDone(repo: Repo, parent: Location, node: Node)
    requires !node.Root? && Lookup(repo.root, parent).Ok?
    requires Store(Lookup(repo.root, parent).value, node).result.Ok?
    ensures StoreAt(repo, parent, node) ==
            Done(repo.(root := ReplaceAt(repo.root, parent, Store(Lookup(repo.root, parent).value, node).node)))
  {
  }

  /** The default client takes the split as its round 0. */
  lemma ClientTakesSplit()
    ensures Store(DefaultClient, GappedSplit) == Stored(ClientWithSplit, Ok(AInt(0)))
  {
  }

  const ClientWithSplit := Client(AStr(DefaultClientName), [Child(GappedSplit)], None)

  /** Round 0 of that client is the split. */
  lemma ClientWithSplitRound()
    ensures Lookup(ClientWithSplit, FirstRoundScope) == Ok(GappedSplit)
  {
    assert SublocationKeys(ClientWithSplit) == [AInt(0)];
    LookupDescends(ClientWithSplit, FirstRoundScope);
  }

  /** Storing the split into the default client commits. */
  lemma GappedStoreCommits()
    ensures StoreAt(Init([]), ClientScope, GappedSplit) ==
            Done(Init([]).(root := ReplaceAt(Init([]).root, ClientScope, ClientWithSplit)))
  {
    ClientTakesSplit();
    StoreAtDone(Init([]), ClientScope, GappedSplit);
  }

  /** In the tree with the client replaced, round 0 is the split. */
  lemma GappedRoundIsSplit()
    ensures Lookup(ReplaceAt(Init([]).root, ClientScope, ClientWithSplit), FirstRoundScope) == Ok(GappedSplit)
  {
    ClientScopeLeadsToRound();
    LookupThroughReplaced(Init([]).root, ClientScope, ClientWithSplit, FirstRoundScope);
    ClientWithSplitRound();
  }

  /** The client's location is found in the default tree and is a prefix of
      round 0's. */
  lemma ClientScopeLeadsToRound()
    ensures Lookup(Init([]).root, ClientScope).Ok? && Canonical(ClientScope)
    ensures AgreeBelow(ClientScope, FirstRoundScope, Len(ClientScope))
  {
    ClientScopeIsList();
    assert Len(ClientScope) == 2;
  }

  /** A scope with a gap before the node's coordinate passes the id check and
      stores the node under a shallower parent: a split saved at round 0,
      split 0 with no trial set lands in the client's round list. */
  lemma GappedScopeMisfiles()
    ensures var r := Save(Init([]), GappedSplit, GappedScope, true);
            r.Done? && Lookup(r.state.root, FirstRoundScope) == Ok(GappedSplit)
  {
    assert Coordinate(GappedScope, SplitKind) == Some(AInt(0));
    DeepSaveStores(Init([]), GappedSplit, GappedScope);
    GappedParentScope();
    GappedStoreCommits();
    GappedRoundIsSplit();
  }
}
