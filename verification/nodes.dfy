/** The metadata tree: Root -> Project -> Client -> Round -> Trial -> TrialSplit
    -> MetricResults. Root, Project and TrialSplit own an ordered map of
    children; Client, Round and Trial own an index list; MetricResults' list
    sublocation is its per-epoch validation values. Python nodes are mutable and
    copied with `deepcopy`; here they are values, so every copy is deep. */
module Nodes {
  import opened Errors
  import opened Kinds

  const DefaultProjectName: string := "default_project"
  const DefaultClientName: string := "default_client"

  /** Trial status, hyperparameter samples and the log are carried, never interpreted. */
  datatype TrialStatus = Planned | Running | Success | Failed | Aborted

  /** Hyperparameter samples as flat name/value pairs. `PositionalId` is what
      the `hyperparams` field receives when a trial is built from a bare id. */
  datatype Hyperparams = Samples(flat: seq<(string, string)>) | PositionalId(id: Attr)

  /** The fields Trial and TrialSplit share (timestamps are not modelled). */
  datatype TrialInfo = TrialInfo(hyperparams: Hyperparams, status: TrialStatus, log: string)

  const FreshInfo: TrialInfo := TrialInfo(Samples([]), Planned, "")

  /** One child position: a placeholder left by `shallow`, a child node, or a
      metric value. */
  datatype Slot = Unset | Child(node: Node) | Score(value: real)

  /** One ordered-map item. */
  datatype Entry = Entry(key: Attr, slot: Slot)

  datatype Node =
    | Root(projects: seq<Entry>)
    | Project(projectName: Attr, clients: seq<Entry>)
    | Client(clientName: Attr, rounds: seq<Slot>, mainMetricName: Option<string>)
    | Round(roundNumber: Attr, trials: seq<Slot>)
    | Trial(trialNumber: Attr, info: TrialInfo, validationSplits: seq<Slot>)
    | TrialSplit(splitNumber: Attr, splitInfo: TrialInfo, metricResults: seq<Entry>)
    | MetricResults(metricName: Attr, validationValues: seq<Slot>, trainValues: seq<real>,
                    higherScoreIsBetter: bool)

  /** A node's children collection, whichever attribute holds it. */
  datatype Sublocation = MapSub(entries: seq<Entry>) | ListSub(slots: seq<Slot>)

  const DefaultClient: Node := Client(AStr(DefaultClientName), [], None)
  const DefaultProject: Node :=
    Project(AStr(DefaultProjectName), [Entry(AStr(DefaultClientName), Child(DefaultClient))])
  /** `RootDataclass()`: a default project holding a default client. */
  const DefaultRoot: Node := Root([Entry(AStr(DefaultProjectName), Child(DefaultProject))])

  function KindOf(n: Node): Kind {
    match n
    case Root(_) => RootKind
    case Project(_, _) => ProjectKind
    case Client(_, _, _) => ClientKind
    case Round(_, _) => RoundKind
    case Trial(_, _, _) => TrialKind
    case TrialSplit(_, _, _) => SplitKind
    case MetricResults(_, _, _, _) => MetricKind
  }

  /** `get_id`: the node's id attribute; Root has none. */
  function GetId(n: Node): (r: Option<Attr>)
    ensures r.None? <==> n.Root?
  {
    match n
    case Root(_) => None
    case Project(name, _) => Some(name)
    case Client(name, _, _) => Some(name)
    case Round(number, _) => Some(number)
    case Trial(number, _, _) => Some(number)
    case TrialSplit(number, _, _) => Some(number)
    case MetricResults(name, _, _, _) => Some(name)
  }

  function Id(n: Node): Attr
    requires !n.Root?
  {
    GetId(n).value
  }

  function GetSublocation(n: Node): (r: Sublocation)
    ensures r.MapSub? <==> IsMapKind(KindOf(n))
  {
    match n
    case Root(es) => MapSub(es)
    case Project(_, es) => MapSub(es)
    case Client(_, ss, _) => ListSub(ss)
    case Round(_, ss) => ListSub(ss)
    case Trial(_, _, ss) => ListSub(ss)
    case TrialSplit(_, _, es) => MapSub(es)
    case MetricResults(_, ss, _, _) => ListSub(ss)
  }

  /** The node with its children collection replaced, no check performed. */
  function WithSublocation(n: Node, sub: Sublocation): (r: Node)
    requires sub.MapSub? <==> IsMapKind(KindOf(n))
    ensures KindOf(r) == KindOf(n) && GetId(r) == GetId(n)
    ensures GetSublocation(r) == sub
  {
    match n
    case Root(_) => Root(sub.entries)
    case Project(name, _) => Project(name, sub.entries)
    case Client(name, _, metric) => Client(name, sub.slots, metric)
    case Round(number, _) => Round(number, sub.slots)
    case Trial(number, info, _) => Trial(number, info, sub.slots)
    case TrialSplit(number, info, _) => TrialSplit(number, info, sub.entries)
    case MetricResults(name, _, train, higher) => MetricResults(name, sub.slots, train, higher)
  }

  /** The node's own fields only: its children collection emptied. */
  function Bare(n: Node): (r: Node)
    ensures KindOf(r) == KindOf(n) && GetId(r) == GetId(n)
    ensures GetSublocation(r) == (if IsMapKind(KindOf(n)) then MapSub([]) else ListSub([]))
  {
    WithSublocation(n, if IsMapKind(KindOf(n)) then MapSub([]) else ListSub([]))
  }

  lemma BareOfWithSublocation(n: Node, sub: Sublocation)
    requires sub.MapSub? <==> IsMapKind(KindOf(n))
    ensures Bare(WithSublocation(n, sub)) == Bare(n)
    ensures WithSublocation(n, GetSublocation(n)) == n
  {
  }

  /** Two nodes with the same own fields and children are the same node. */
  lemma BareAndSublocationDetermineNode(a: Node, b: Node)
    requires Bare(a) == Bare(b) && GetSublocation(a) == GetSublocation(b)
    ensures a == b
  {
  }

  /* ---------------- ordered maps ---------------- */

  function EntryKeys(es: seq<Entry>): (ks: seq<Attr>)
    ensures |ks| == |es| && forall i | 0 <= i < |es| :: ks[i] == es[i].key
  {
    seq(|es|, i requires 0 <= i < |es| => es[i].key)
  }

  function EntrySlots(es: seq<Entry>): (ss: seq<Slot>)
    ensures |ss| == |es| && forall i | 0 <= i < |es| :: ss[i] == es[i].slot
  {
    seq(|es|, i requires 0 <= i < |es| => es[i].slot)
  }

  predicate DistinctKeys(es: seq<Entry>) {
    forall i, j | 0 <= i < j < |es| :: es[i].key != es[j].key
  }

  /** Position of the first entry with key `k`. */
  function KeyIndex(es: seq<Entry>, k: Attr): (r: Option<nat>)
    ensures r.None? <==> k !in EntryKeys(es)
    ensures r.Some? ==> r.value < |es| && es[r.value].key == k
    ensures r.Some? ==> forall j | 0 <= j < r.value :: es[j].key != k
    decreases |es|
  {
    if |es| == 0 then None
    else if es[0].key == k then Some(0)
    else match KeyIndex(es[1..], k)
      case None => None
      case Some(j) => Some(j + 1)
  }

  /** `OrderedDict.__setitem__`: an existing key keeps its position, a new key goes last. */
  function Put(es: seq<Entry>, k: Attr, s: Slot): (r: seq<Entry>)
    ensures IsPut(es, k, s, r)
  {
    match KeyIndex(es, k)
    case Some(i) =>
      PutAtIndex(es, k, s, i);
      es[i := Entry(k, s)]
    case None =>
      PutAppended(es, k, s);
      es + [Entry(k, s)]
  }

  /** `r` is `es` with `s` under `k`: the keys are those of `es`, with `k`
      added last when new; `k` holds `s`; every other entry is unchanged;
      distinct keys stay distinct. */
  predicate IsPut(es: seq<Entry>, k: Attr, s: Slot, r: seq<Entry>) {
    && (k in EntryKeys(es) ==> EntryKeys(r) == EntryKeys(es))
    && (k !in EntryKeys(es) ==> EntryKeys(r) == EntryKeys(es) + [k])
    && KeyIndex(r, k).Some? && r[KeyIndex(r, k).value].slot == s
    && (forall i | 0 <= i < |es| && es[i].key != k :: i < |r| && r[i] == es[i])
    && (DistinctKeys(es) ==> DistinctKeys(r))
    && (DistinctKeys(es) ==> forall i | 0 <= i < |r| ::
          if r[i].key == k then r[i].slot == s else i < |es| && r[i] == es[i])
  }

  /** Overwriting an existing key in place is a put. */
  lemma PutAtIndex(es: seq<Entry>, k: Attr, s: Slot, i: nat)
    requires KeyIndex(es, k) == Some(i)
    ensures IsPut(es, k, s, es[i := Entry(k, s)])
  {
    var r := es[i := Entry(k, s)];
    assert EntryKeys(r) == EntryKeys(es);
    assert k in EntryKeys(es);
    assert KeyIndex(r, k) == Some(i) by { KeyIndexOfFirst(r, k, i); }
    assert r[i].slot == s;
    assert forall j | 0 <= j < |es| && es[j].key != k :: j < |r| && r[j] == es[j];
    if DistinctKeys(es) {
      assert DistinctKeys(r) by {
        forall a, b | 0 <= a < b < |r| ensures r[a].key != r[b].key {
          assert r[a].key == es[a].key && r[b].key == es[b].key;
        }
      }
      forall j | 0 <= j < |r|
        ensures if r[j].key == k then r[j].slot == s else j < |es| && r[j] == es[j]
      {
        if j != i {
          assert r[j] == es[j];
          assert es[j].key != es[i].key;
        }
      }
    }
  }

  /** The first entry whose key is `k` is what `KeyIndex` finds. */
  lemma KeyIndexOfFirst(es: seq<Entry>, k: Attr, i: nat)
    requires i < |es| && es[i].key == k && forall j | 0 <= j < i :: es[j].key != k
    ensures KeyIndex(es, k) == Some(i)
  {
    var r := KeyIndex(es, k);
    assert k in EntryKeys(es) by { assert EntryKeys(es)[i] == k; }
  }

  /** Appending an entry under a new key is a put. */
  lemma PutAppended(es: seq<Entry>, k: Attr, s: Slot)
    requires KeyIndex(es, k).None?
    ensures IsPut(es, k, s, es + [Entry(k, s)])
  {
    var r := es + [Entry(k, s)];
    assert EntryKeys(r) == EntryKeys(es) + [k];
    assert KeyIndex(r, k) == Some(|es|);
  }

  /* ---------------- sublocation keys and values ---------------- */

  /** `len(dc)`. */
  function Size(n: Node): nat {
    match GetSublocation(n)
    case MapSub(es) => |es|
    case ListSub(ss) => |ss|
  }

  /** `len(dc)` counts the node's children, in whichever attribute holds
      them. */
  lemma SizeCountsChildren(n: Node)
    ensures n.Root? ==> Size(n) == |n.projects|
    ensures n.Project? ==> Size(n) == |n.clients|
    ensures n.Client? ==> Size(n) == |n.rounds|
    ensures n.Round? ==> Size(n) == |n.trials|
    ensures n.Trial? ==> Size(n) == |n.validationSplits|
    ensures n.TrialSplit? ==> Size(n) == |n.metricResults|
    ensures n.MetricResults? ==> Size(n) == |n.validationValues|
  {
  }

  function Indices(n: nat): (ks: seq<Attr>)
    ensures |ks| == n && forall i | 0 <= i < n :: ks[i] == AInt(i)
  {
    seq(n, i requires 0 <= i < n => AInt(i))
  }

  /** `get_sublocation_keys`: a map node's keys in insertion order; a list
      node's indices `0 .. len-1`. */
  function SublocationKeys(n: Node): (ks: seq<Attr>)
    ensures |ks| == Size(n)
    ensures !IsMapKind(KindOf(n)) ==> forall i | 0 <= i < |ks| :: ks[i] == AInt(i)
    ensures IsMapKind(KindOf(n)) ==> forall i | 0 <= i < |ks| :: ks[i] == GetSublocation(n).entries[i].key
  {
    match GetSublocation(n)
    case MapSub(es) => EntryKeys(es)
    case ListSub(ss) => Indices(|ss|)
  }

  /** `get_sublocation_values`, in the same order as the keys. */
  function SublocationValues(n: Node): (vs: seq<Slot>)
    ensures |vs| == Size(n)
  {
    match GetSublocation(n)
    case MapSub(es) => EntrySlots(es)
    case ListSub(ss) => ss
  }

  /** `get_next_i`, defined for list nodes only. */
  function NextIndex(n: Node): (i: nat)
    requires !IsMapKind(KindOf(n))
    ensures i == |SublocationValues(n)|
  {
    Size(n)
  }

  /** The slot under key `a`. */
  function SlotAt(n: Node, a: Attr): Slot
    requires a in SublocationKeys(n)
  {
    match GetSublocation(n)
    case MapSub(es) => es[KeyIndex(es, a).value].slot
    case ListSub(ss) => ss[a.i]
  }

  lemma SlotAtIsValue(n: Node, a: Attr) returns (i: nat)
    requires a in SublocationKeys(n)
    ensures i < Size(n) && SublocationKeys(n)[i] == a && SublocationValues(n)[i] == SlotAt(n, a)
  {
    match GetSublocation(n)
    case MapSub(es) => i := KeyIndex(es, a).value;
    case ListSub(ss) => i := a.i;
  }

  /** Children are smaller than their parent: recursion over the tree terminates. */
  lemma ValueSmaller(n: Node, i: nat)
    requires i < Size(n) && SublocationValues(n)[i].Child?
    ensures SublocationValues(n)[i].node < n
  {
    match n
    case Root(es) => assert SublocationValues(n)[i] == es[i].slot;
    case Project(_, es) => assert SublocationValues(n)[i] == es[i].slot;
    case TrialSplit(_, _, es) => assert SublocationValues(n)[i] == es[i].slot;
    case Client(_, _, _) =>
    case Round(_, _) =>
    case Trial(_, _, _) =>
    case MetricResults(_, _, _, _) =>
  }

  lemma SlotAtSmaller(n: Node, a: Attr)
    requires a in SublocationKeys(n) && SlotAt(n, a).Child?
    ensures SlotAt(n, a).node < n
  {
    var i := SlotAtIsValue(n, a);
    ValueSmaller(n, i);
  }

  /** A children collection with the slot under key `a` replaced. */
  function SubWithSlotAt(sub: Sublocation, a: Attr, s: Slot): Sublocation {
    match sub
    case MapSub(es) => MapSub(Put(es, a, s))
    case ListSub(ss) => if a.AInt? && 0 <= a.i < |ss| then ListSub(ss[a.i := s]) else sub
  }

  /** The node with the slot under key `a` replaced; keys and own fields unchanged. */
  function WithSlotAt(n: Node, a: Attr, s: Slot): (r: Node)
    requires a in SublocationKeys(n)
    ensures Bare(r) == Bare(n) && SublocationKeys(r) == SublocationKeys(n)
    ensures SlotAt(r, a) == s
    ensures GetSublocation(r) == SubWithSlotAt(GetSublocation(n), a, s)
  {
    var sub := SubWithSlotAt(GetSublocation(n), a, s);
    BareOfWithSublocation(n, sub);
    assert sub.MapSub? ==> EntryKeys(sub.entries) == EntryKeys(GetSublocation(n).entries);
    WithSublocation(n, sub)
  }

  /** Putting a slot back where it was changes nothing. */
  lemma WithSlotAtSame(n: Node, a: Attr)
    requires a in SublocationKeys(n)
    ensures WithSlotAt(n, a, SlotAt(n, a)) == n
  {
    SubWithSlotAtSame(n, a);
    BareOfWithSublocation(n, GetSublocation(n));
  }

  lemma SubWithSlotAtSame(n: Node, a: Attr)
    requires a in SublocationKeys(n)
    ensures SubWithSlotAt(GetSublocation(n), a, SlotAt(n, a)) == GetSublocation(n)
  {
    match GetSublocation(n)
    case MapSub(es) =>
      var i := KeyIndex(es, a).value;
      assert es[i] == Entry(a, es[i].slot);
      assert Put(es, a, es[i].slot) == es[i := Entry(a, es[i].slot)];
      assert es[i := Entry(a, es[i].slot)] == es;
    case ListSub(ss) =>
      assert a == Indices(|ss|)[a.i];
      assert ss[a.i := ss[a.i]] == ss;
  }

  /** Nodes with the same own fields have the same type and id. */
  lemma BareKindAndId(a: Node, b: Node)
    requires Bare(a) == Bare(b)
    ensures KindOf(a) == KindOf(b) && GetId(a) == GetId(b)
  {
  }

  /* ---------------- the invariant and the mutators ---------------- */

  predicate SlotFits(s: Slot, k: Kind) {
    s.Unset? || (s.Child? && KindOf(s.node) == k)
  }

  /** Every key of the node is a string. */
  predicate KeysAreStrings(n: Node) {
    forall i | 0 <= i < Size(n) :: SublocationKeys(n)[i].AStr?
  }

  /** Every value of the node is a placeholder or a child of the next kind. */
  predicate ValuesFit(n: Node)
    requires KindOf(n) != MetricKind
  {
    forall i | 0 <= i < Size(n) :: SlotFits(SublocationValues(n)[i], SubKind(KindOf(n)).value)
  }

  /** `_invariant`: a map node's keys must all be strings, then its values
      must all be placeholders or children of the next kind; a list node only
      needs a list. The first failing check names the `ValueError`. */
  function InvariantViolation(n: Node): (r: Option<ValueReason>)
    ensures r.Some? ==> IsMapKind(KindOf(n))
    ensures r == Some(NonStringKey) <==> IsMapKind(KindOf(n)) && !KeysAreStrings(n)
    ensures r.None? <==> !IsMapKind(KindOf(n)) || (KeysAreStrings(n) && ValuesFit(n))
    ensures r.Some? ==> r.value == NonStringKey || r.value == WrongChildType
  {
    if !IsMapKind(KindOf(n)) then None
    else if !KeysAreStrings(n) then Some(NonStringKey)
    else if !ValuesFit(n) then Some(WrongChildType)
    else None
  }

  /** `set_sublocation`: install a children collection, then check the invariant. */
  function SetSublocation(n: Node, sub: Sublocation): (r: Result<Node>)
    ensures IsMapKind(KindOf(n)) && sub.ListSub? ==> r == Err(ValueError(NotOrderedDict))
    ensures !IsMapKind(KindOf(n)) && sub.MapSub? ==> r == Err(ValueError(NotList))
    ensures (sub.MapSub? <==> IsMapKind(KindOf(n))) ==>
              (r.Ok? <==> InvariantViolation(WithSublocation(n, sub)).None?)
    ensures r.Ok? ==> Bare(r.value) == Bare(n) && GetSublocation(r.value) == sub
  {
    if IsMapKind(KindOf(n)) && sub.ListSub? then Err(ValueError(NotOrderedDict))
    else if !IsMapKind(KindOf(n)) && sub.MapSub? then Err(ValueError(NotList))
    else
      var n' := WithSublocation(n, sub);
      BareOfWithSublocation(n, sub);
      match InvariantViolation(n')
      case Some(why) => Err(ValueError(why))
      case None => Ok(n')
  }

  /** What `store` leaves the parent as, and what it returned or raised. */
  datatype Stored = Stored(node: Node, result: Result<Attr>)

  /** `store(dc)`. A map node sets key `dc.get_id()` to `dc` and only then
      checks its invariant, so a rejected child stays inserted. A list node
      appends at `id == len`, overwrites at a smaller id (Python indexing, so
      a negative id counts from the end) and rejects a larger one; a string id
      cannot be compared with the length. */
  function Store(parent: Node, child: Node): (r: Stored)
    requires !child.Root?
    ensures KindOf(r.node) == KindOf(parent) && Bare(r.node) == Bare(parent)
    ensures r.result.Ok? ==> r.result.value == Id(child)
    // ordered map
    ensures IsMapKind(KindOf(parent)) ==>
              && (Id(child) in SublocationKeys(parent) ==> SublocationKeys(r.node) == SublocationKeys(parent))
              && (Id(child) !in SublocationKeys(parent) ==>
                    SublocationKeys(r.node) == SublocationKeys(parent) + [Id(child)])
              && SlotAt(r.node, Id(child)) == Child(child)
              && (r.result.Ok? <==> InvariantViolation(r.node).None?)
              && (r.result.Err? ==> r.result.error.ValueError?)
    // index list
    ensures !IsMapKind(KindOf(parent)) && Id(child) == AInt(Size(parent)) ==>
              r.result.Ok? && SublocationValues(r.node) == SublocationValues(parent) + [Child(child)]
    ensures !IsMapKind(KindOf(parent)) && Id(child).AInt? && 0 <= Id(child).i < Size(parent) ==>
              r.result.Ok? && SublocationValues(r.node) == SublocationValues(parent)[Id(child).i := Child(child)]
    ensures !IsMapKind(KindOf(parent)) && Id(child).AInt? && 0 <= Size(parent) + Id(child).i && Id(child).i < 0 ==>
              r.result.Ok? &&
              SublocationValues(r.node) == SublocationValues(parent)[Size(parent) + Id(child).i := Child(child)]
    ensures !IsMapKind(KindOf(parent)) && Id(child).AInt? && Id(child).i > Size(parent) ==>
              r == Stored(parent, Err(ValueError(IdBeyondNext)))
    ensures !IsMapKind(KindOf(parent)) && Id(child).AInt? && Size(parent) + Id(child).i < 0 ==>
              r == Stored(parent, Err(IndexError))
    ensures !IsMapKind(KindOf(parent)) && Id(child).AStr? ==> r == Stored(parent, Err(TypeError))
  {
    var id := Id(child);
    match GetSublocation(parent)
    case MapSub(es) =>
      var es' := Put(es, id, Child(child));
      var p := WithSublocation(parent, MapSub(es'));
      BareOfWithSublocation(parent, MapSub(es'));
      (match InvariantViolation(p)
       case Some(why) => Stored(p, Err(ValueError(why)))
       case None => Stored(p, Ok(id)))
    case ListSub(ss) =>
      match id
      case AStr(_) => Stored(parent, Err(TypeError))
      case AInt(i) =>
        if i == |ss| then
          BareOfWithSublocation(parent, ListSub(ss + [Child(child)]));
          Stored(WithSublocation(parent, ListSub(ss + [Child(child)])), Ok(id))
        else if i > |ss| then Stored(parent, Err(ValueError(IdBeyondNext)))
        else if i >= 0 then
          BareOfWithSublocation(parent, ListSub(ss[i := Child(child)]));
          Stored(WithSublocation(parent, ListSub(ss[i := Child(child)])), Ok(id))
        else if i >= -|ss| then
          BareOfWithSublocation(parent, ListSub(ss[|ss| + i := Child(child)]));
          Stored(WithSublocation(parent, ListSub(ss[|ss| + i := Child(child)])), Ok(id))
        else Stored(parent, Err(IndexError))
  }

  /** `shallow()`: the same keys (or list length) with every child replaced by
      a placeholder. Re-installing the map re-runs the invariant, which can
      only object to a non-string key once the values are placeholders. */
  function Shallow(n: Node): (r: Result<Node>)
    ensures r.Ok? <==> !IsMapKind(KindOf(n)) || KeysAreStrings(n)
    ensures r.Err? ==> r.error == ValueError(NonStringKey)
    ensures r.Ok? ==> Bare(r.value) == Bare(n) && SublocationKeys(r.value) == SublocationKeys(n)
    ensures r.Ok? ==> forall i | 0 <= i < Size(r.value) :: SublocationValues(r.value)[i] == Unset
  {
    match GetSublocation(n)
    case MapSub(es) =>
      var blank := seq(|es|, i requires 0 <= i < |es| => Entry(es[i].key, Unset));
      var n' := WithSublocation(n, MapSub(blank));
      assert SublocationKeys(n') == SublocationKeys(n);
      assert forall i | 0 <= i < Size(n') :: SublocationValues(n')[i] == Unset;
      SetSublocation(n, MapSub(blank))
    case ListSub(ss) =>
      SetSublocation(n, ListSub(seq(|ss|, i requires 0 <= i < |ss| => Unset)))
  }

  /** Shallowing twice is shallowing once. */
  lemma ShallowIdempotent(n: Node)
    requires Shallow(n).Ok?
    ensures Shallow(Shallow(n).value) == Shallow(n)
  {
    var s := Shallow(n).value;
    var t := Shallow(s).value;
    assert GetSublocation(t) == GetSublocation(s) by {
      match GetSublocation(s)
      case MapSub(es) =>
        assert EntryKeys(GetSublocation(t).entries) == EntryKeys(es);
        assert forall i | 0 <= i < |es| :: es[i].slot == Unset by {
          forall i | 0 <= i < |es| ensures es[i].slot == Unset {
            assert SublocationValues(s)[i] == es[i].slot;
          }
        }
        assert forall i | 0 <= i < |es| :: GetSublocation(t).entries[i].slot == Unset by {
          forall i | 0 <= i < |es| ensures GetSublocation(t).entries[i].slot == Unset {
            assert SublocationValues(t)[i] == GetSublocation(t).entries[i].slot;
          }
        }
      case ListSub(ss) =>
    }
    BareAndSublocationDetermineNode(s, t);
  }

  /* ---------------- well-formed trees ---------------- */

  /** The shape `store` builds, one level deep: distinct string keys over
      children of the next kind filed under their own ids (map nodes), children
      of the next kind at the index equal to their id (list nodes), and metric
      values only under MetricResults. */
  predicate ShapeOk(n: Node) {
    match GetSublocation(n)
    case MapSub(es) =>
      && DistinctKeys(es)
      && (forall i | 0 <= i < |es| :: es[i].key.AStr?)
      && (forall i | 0 <= i < |es| :: es[i].slot.Unset? ||
            (es[i].slot.Child? && KindOf(es[i].slot.node) == SubKind(KindOf(n)).value
             && GetId(es[i].slot.node) == Some(es[i].key)))
    case ListSub(ss) =>
      if KindOf(n) == MetricKind then forall i | 0 <= i < |ss| :: !ss[i].Child?
      else forall i | 0 <= i < |ss| :: ss[i].Unset? ||
             (ss[i].Child? && KindOf(ss[i].node) == SubKind(KindOf(n)).value
              && GetId(ss[i].node) == Some(AInt(i)))
  }

  /** `ShapeOk` at every level. */
  predicate WellFormed(n: Node)
    decreases n
  {
    ShapeOk(n) &&
    match n
    case Root(es) => forall i | 0 <= i < |es| :: es[i].slot.Child? ==> WellFormed(es[i].slot.node)
    case Project(_, es) => forall i | 0 <= i < |es| :: es[i].slot.Child? ==> WellFormed(es[i].slot.node)
    case Client(_, ss, _) => forall i | 0 <= i < |ss| :: ss[i].Child? ==> WellFormed(ss[i].node)
    case Round(_, ss) => forall i | 0 <= i < |ss| :: ss[i].Child? ==> WellFormed(ss[i].node)
    case Trial(_, _, ss) => forall i | 0 <= i < |ss| :: ss[i].Child? ==> WellFormed(ss[i].node)
    case TrialSplit(_, _, es) => forall i | 0 <= i < |es| :: es[i].slot.Child? ==> WellFormed(es[i].slot.node)
    case MetricResults(_, _, _, _) => true
  }

  /** `WellFormed` unfolded: the local shape, and every child well formed. */
  lemma WellFormedUnfold(n: Node)
    ensures WellFormed(n) <==>
              ShapeOk(n) && forall i | 0 <= i < Size(n) && SublocationValues(n)[i].Child? ::
                              WellFormed(SublocationValues(n)[i].node)
  {
    match n
    case Root(es) => assert forall i | 0 <= i < |es| :: SublocationValues(n)[i] == es[i].slot;
    case Project(_, es) => assert forall i | 0 <= i < |es| :: SublocationValues(n)[i] == es[i].slot;
    case TrialSplit(_, _, es) => assert forall i | 0 <= i < |es| :: SublocationValues(n)[i] == es[i].slot;
    case Client(_, ss, _) => assert SublocationValues(n) == ss;
    case Round(_, ss) => assert SublocationValues(n) == ss;
    case Trial(_, _, ss) => assert SublocationValues(n) == ss;
    case MetricResults(_, ss, _, _) =>
  }

  /** In a well-formed node, the slot under a key holds a child of the next
      kind whose id is that key, or a placeholder. */
  lemma WellFormedSlot(n: Node, a: Attr)
    requires ShapeOk(n) && a in SublocationKeys(n) && KindOf(n) != MetricKind
    ensures SlotAt(n, a).Unset? ||
            (SlotAt(n, a).Child? && KindOf(SlotAt(n, a).node) == SubKind(KindOf(n)).value
             && GetId(SlotAt(n, a).node) == Some(a))
  {
    var i := SlotAtIsValue(n, a);
  }

  lemma WellFormedSlotChild(n: Node, a: Attr)
    requires WellFormed(n) && a in SublocationKeys(n) && SlotAt(n, a).Child?
    ensures WellFormed(SlotAt(n, a).node)
  {
    var i := SlotAtIsValue(n, a);
    WellFormedUnfold(n);
  }

  /** The keys of a well-formed node are distinct. */
  lemma WellFormedKeysDistinct(n: Node)
    requires ShapeOk(n)
    ensures forall i, j | 0 <= i < j < Size(n) :: SublocationKeys(n)[i] != SublocationKeys(n)[j]
  {
  }

  lemma DefaultRootWellFormed()
    ensures WellFormed(DefaultRoot)
  {
    assert WellFormed(DefaultClient);
    assert ShapeOk(DefaultProject);
    assert WellFormed(DefaultProject);
    assert ShapeOk(DefaultRoot);
  }

  /** A child that fits a well-formed map node's slot. */
  predicate FitsWellFormed(e: Entry, k: Kind) {
    e.slot.Unset? ||
    (e.slot.Child? && KindOf(e.slot.node) == k && GetId(e.slot.node) == Some(e.key) && WellFormed(e.slot.node))
  }

  predicate AllFit(es: seq<Entry>, k: Kind) {
    forall i | 0 <= i < |es| :: es[i].key.AStr? && FitsWellFormed(es[i], k)
  }

  lemma PutKeepsFit(es: seq<Entry>, k: Kind, child: Node)
    requires DistinctKeys(es) && AllFit(es, k)
    requires !child.Root? && Id(child).AStr? && KindOf(child) == k && WellFormed(child)
    ensures DistinctKeys(Put(es, Id(child), Child(child)))
    ensures AllFit(Put(es, Id(child), Child(child)), k)
  {
    var r := Put(es, Id(child), Child(child));
    forall i | 0 <= i < |r| ensures r[i].key.AStr? && FitsWellFormed(r[i], k) {
      if r[i].key != Id(child) {
        assert r[i] == es[i];
      }
    }
  }

  lemma StoreMapWellFormed(parent: Node, child: Node)
    requires WellFormed(parent) && WellFormed(child) && !child.Root? && IsMapKind(KindOf(parent))
    requires SubKind(KindOf(parent)) == Some(KindOf(child)) && Id(child).AStr?
    ensures Store(parent, child).result == Ok(Id(child))
    ensures WellFormed(Store(parent, child).node)
  {
    var es := GetSublocation(parent).entries;
    var es' := Put(es, Id(child), Child(child));
    var r := Store(parent, child).node;
    assert GetSublocation(r) == MapSub(es');
    MapWellFormed(parent);
    PutKeepsFit(es, KindOf(child), child);
    MapWellFormed(r);
    MapFitPassesInvariant(r);
  }

  /** A map node whose entries all fit passes the invariant. */
  lemma MapFitPassesInvariant(n: Node)
    requires IsMapKind(KindOf(n)) && AllFit(GetSublocation(n).entries, SubKind(KindOf(n)).value)
    ensures InvariantViolation(n).None?
  {
    var es := GetSublocation(n).entries;
    assert SublocationValues(n) == EntrySlots(es);
    forall i | 0 <= i < Size(n)
      ensures SublocationKeys(n)[i].AStr? && SlotFits(SublocationValues(n)[i], SubKind(KindOf(n)).value)
    {
      assert FitsWellFormed(es[i], SubKind(KindOf(n)).value);
    }
  }

  lemma StoreListWellFormed(parent: Node, child: Node)
    requires WellFormed(parent) && WellFormed(child) && !child.Root? && !IsMapKind(KindOf(parent))
    requires SubKind(KindOf(parent)) == Some(KindOf(child))
    requires Id(child).AInt? && 0 <= Id(child).i <= Size(parent)
    ensures Store(parent, child).result == Ok(Id(child))
    ensures WellFormed(Store(parent, child).node)
  {
    var ss := GetSublocation(parent).slots;
    var i := Id(child).i;
    var ss' := if i == |ss| then ss + [Child(child)] else ss[i := Child(child)];
    var r := Store(parent, child).node;
    assert SublocationValues(r) == ss';
    ListWellFormed(parent);
    PlaceKeepsListFit(ss, i, child, KindOf(child));
    assert GetSublocation(r) == ListSub(ss');
    ListWellFormed(r);
  }

  /** Placing a fitting child at its own index, or just past the end, keeps
      a list of slots fitting. */
  lemma PlaceKeepsListFit(ss: seq<Slot>, i: nat, c: Node, k: Kind)
    requires ListFit(ss, k) && i <= |ss|
    requires KindOf(c) == k && GetId(c) == Some(AInt(i)) && WellFormed(c)
    ensures ListFit(if i == |ss| then ss + [Child(c)] else ss[i := Child(c)], k)
  {
    var ss' := if i == |ss| then ss + [Child(c)] else ss[i := Child(c)];
    forall j | 0 <= j < |ss'|
      ensures ss'[j].Unset? || (ss'[j].Child? && KindOf(ss'[j].node) == k
                               && GetId(ss'[j].node) == Some(AInt(j)) && WellFormed(ss'[j].node))
    {
      if j != i {
        assert ss'[j] == ss[j];
      }
    }
  }

  /** Storing a well-formed child of the next kind under a string key, or at a
      list index no greater than the length, keeps the parent well formed and
      passes the invariant. */
  lemma StorePreservesWellFormed(parent: Node, child: Node)
    requires WellFormed(parent) && WellFormed(child) && !child.Root?
    requires SubKind(KindOf(parent)) == Some(KindOf(child))
    requires IsMapKind(KindOf(parent)) ==> Id(child).AStr?
    requires !IsMapKind(KindOf(parent)) ==> Id(child).AInt? && 0 <= Id(child).i <= Size(parent)
    ensures Store(parent, child).result == Ok(Id(child))
    ensures WellFormed(Store(parent, child).node)
  {
    if IsMapKind(KindOf(parent)) {
      StoreMapWellFormed(parent, child);
    } else {
      StoreListWellFormed(parent, child);
    }
  }

  /** A list of slots as a well-formed list node holds them. */
  predicate ListFit(ss: seq<Slot>, k: Kind) {
    forall j | 0 <= j < |ss| :: ss[j].Unset? ||
      (ss[j].Child? && KindOf(ss[j].node) == k && GetId(ss[j].node) == Some(AInt(j)) && WellFormed(ss[j].node))
  }

  /** `WellFormed` of a map node, entry by entry. */
  lemma MapWellFormed(n: Node)
    requires IsMapKind(KindOf(n))
    ensures WellFormed(n) <==>
              DistinctKeys(GetSublocation(n).entries) && AllFit(GetSublocation(n).entries, SubKind(KindOf(n)).value)
  {
  }

  /** `WellFormed` of a list node other than MetricResults, slot by slot. */
  lemma ListWellFormed(n: Node)
    requires !IsMapKind(KindOf(n)) && KindOf(n) != MetricKind
    ensures WellFormed(n) <==> ListFit(GetSublocation(n).slots, SubKind(KindOf(n)).value)
  {
  }

  /** Swapping a child for a well-formed node of the same type and id keeps
      its parent well formed. */
  lemma WithSlotAtPreservesWellFormed(n: Node, a: Attr, c: Node)
    requires WellFormed(n) && a in SublocationKeys(n) && SlotAt(n, a).Child? && WellFormed(c)
    requires KindOf(c) == KindOf(SlotAt(n, a).node) && GetId(c) == GetId(SlotAt(n, a).node)
    ensures WellFormed(WithSlotAt(n, a, Child(c)))
  {
    if GetSublocation(n).MapSub? {
      WithSlotAtMapWellFormed(n, a, c);
    } else {
      WithSlotAtListWellFormed(n, a, c);
    }
  }

  lemma WithSlotAtMapWellFormed(n: Node, a: Attr, c: Node)
    requires WellFormed(n) && a in SublocationKeys(n) && SlotAt(n, a).Child? && WellFormed(c)
    requires KindOf(c) == KindOf(SlotAt(n, a).node) && GetId(c) == GetId(SlotAt(n, a).node)
    requires GetSublocation(n).MapSub?
    ensures WellFormed(WithSlotAt(n, a, Child(c)))
  {
    var r := WithSlotAt(n, a, Child(c));
    var es := GetSublocation(n).entries;
    assert IsMapKind(KindOf(n));
    var k := SubKind(KindOf(n)).value;
    MapWellFormed(n);
    var i := KeyIndex(es, a).value;
    assert FitsWellFormed(es[i], k);
    var es' := Put(es, a, Child(c));
    assert GetSublocation(r) == MapSub(es');
    assert AllFit(es', k) by {
      forall j | 0 <= j < |es'| ensures es'[j].key.AStr? && FitsWellFormed(es'[j], k) {
        if es'[j].key != a {
          assert es'[j] == es[j];
        } else {
          assert i < |es| && es[i].key.AStr?;
        }
      }
    }
    MapWellFormed(r);
  }

  lemma WithSlotAtListWellFormed(n: Node, a: Attr, c: Node)
    requires WellFormed(n) && a in SublocationKeys(n) && SlotAt(n, a).Child? && WellFormed(c)
    requires KindOf(c) == KindOf(SlotAt(n, a).node) && GetId(c) == GetId(SlotAt(n, a).node)
    requires GetSublocation(n).ListSub?
    ensures WellFormed(WithSlotAt(n, a, Child(c)))
  {
    var r := WithSlotAt(n, a, Child(c));
    var ss := GetSublocation(n).slots;
    assert !IsMapKind(KindOf(n)) && KindOf(n) != MetricKind;
    var k := SubKind(KindOf(n)).value;
    ListWellFormed(n);
    var x := a.i;
    assert 0 <= x < |ss| && SlotAt(n, a) == ss[x];
    var ss' := ss[x := Child(c)];
    assert GetSublocation(r) == ListSub(ss');
    forall j | 0 <= j < |ss'|
      ensures ss'[j].Unset? || (ss'[j].Child? && KindOf(ss'[j].node) == k
                               && GetId(ss'[j].node) == Some(AInt(j)) && WellFormed(ss'[j].node))
    {
      if j != x {
        assert ss'[j] == ss[j];
      }
    }
    assert ListFit(ss', k);
    ListWellFormed(r);
  }

  /** Well-formedness depends only on a node's type and children. */
  lemma SameShapeWellFormed(a: Node, b: Node)
    requires KindOf(a) == KindOf(b) && GetSublocation(a) == GetSublocation(b)
    ensures WellFormed(a) <==> WellFormed(b)
  {
    if IsMapKind(KindOf(a)) {
      MapWellFormed(a);
      MapWellFormed(b);
    } else if KindOf(a) != MetricKind {
      ListWellFormed(a);
      ListWellFormed(b);
    }
  }

  /** A successful store files the child under its own id, unless a list
      node took a negative id as counting from the end. */
  lemma StoreFiles(parent: Node, child: Node)
    requires !child.Root? && Store(parent, child).result.Ok?
    requires Id(child).AInt? ==> Id(child).i >= 0
    ensures Id(child) in SublocationKeys(Store(parent, child).node)
    ensures SlotAt(Store(parent, child).node, Id(child)) == Child(child)
  {
    var r := Store(parent, child).node;
    if !IsMapKind(KindOf(parent)) {
      var i := Id(child).i;
      assert SublocationKeys(r)[i] == AInt(i);
    }
  }
}
