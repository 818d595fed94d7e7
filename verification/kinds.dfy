/** Coordinate values and the fixed type order of the metadata tree: the three
    ordered tables `dataclass_2_id_attr`, `dataclass_2_subloc_attr` and
    `dataclass_2_subdataclass` of the vanilla repository module. */
module Kinds {
  import opened Errors
  import Numerals

  /** A coordinate or node id: Python `Union[str, int]`. */
  datatype Attr = AStr(s: string) | AInt(i: int)

  /** Python's `str` of a coordinate. */
  function Str(a: Attr): string {
    match a
    case AStr(s) => s
    case AInt(i) => Numerals.IntToString(i)
  }

  /** The seven node classes. */
  datatype Kind = RootKind | ProjectKind | ClientKind | RoundKind | TrialKind | SplitKind | MetricKind

  /** Key order of the id-attribute table: one coordinate per kind, Root excluded. */
  const IdKinds: seq<Kind> := [ProjectKind, ClientKind, RoundKind, TrialKind, SplitKind, MetricKind]

  /** Key order of the sublocation and sub-dataclass tables: Root first. */
  const SublocKinds: seq<Kind> := [RootKind] + IdKinds

  /** The position of a kind in the sublocation table, that is its depth in the tree. */
  function Depth(k: Kind): (d: nat)
    ensures d < |SublocKinds| && SublocKinds[d] == k
  {
    match k
    case RootKind => 0
    case ProjectKind => 1
    case ClientKind => 2
    case RoundKind => 3
    case TrialKind => 4
    case SplitKind => 5
    case MetricKind => 6
  }

  /** The position of a kind in the id-attribute table; Root has none. */
  function IdIndex(k: Kind): (r: Option<nat>)
    ensures r.None? <==> k == RootKind
    ensures r.Some? ==> r.value < |IdKinds| && IdKinds[r.value] == k && Depth(k) == r.value + 1
  {
    if k == RootKind then None else Some(Depth(k) - 1)
  }

  /** The `i`-th entry of the id-attribute table sits at depth `i + 1`. */
  lemma IdKindAt(i: nat)
    requires i < |IdKinds|
    ensures IdKinds[i] != RootKind && Depth(IdKinds[i]) == i + 1
    ensures (IdKinds[i] == TrialKind <==> i == 3) && (IdKinds[i] == SplitKind <==> i == 4)
  {
    if i == 0 {} else if i == 1 {} else if i == 2 {} else if i == 3 {} else if i == 4 {} else {}
  }

  /** The kind of a node's children; MetricResults is the leaf. */
  function SubKind(k: Kind): (r: Option<Kind>)
    ensures r.None? <==> k == MetricKind
    ensures r.Some? ==> Depth(r.value) == Depth(k) + 1
  {
    if k == MetricKind then None else Some(SublocKinds[Depth(k) + 1])
  }

  /** Kinds whose sublocation is an ordered map (the others hold a list). */
  predicate IsMapKind(k: Kind) {
    k == RootKind || k == ProjectKind || k == SplitKind
  }
}
