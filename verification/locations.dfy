/** `ScopedLocation`: an address in the metadata tree, six optional
    coordinates (project, client, round, trial, split, metric). The raw fields
    may have gaps; `as_list` reads the gap-free prefix, and every operation
    that rebuilds a location from that list drops whatever followed a gap. */
module Locations {
  import opened Errors
  import opened Kinds
  import opened Nodes

  /** The six raw fields, in the order of the id-attribute table. */
  type Fields = s: seq<Option<Attr>> | |s| == 6 witness [None, None, None, None, None, None]

  datatype Location = Location(fields: Fields)

  /** `ScopedLocation()`. */
  const Empty: Location := Location([None, None, None, None, None, None])

  /** The raw field at position `i` of the id-attribute table. */
  function Field(l: Location, i: nat): Option<Attr>
    requires i < 6
  {
    l.fields[i]
  }

  /** `setattr` of the raw field at position `i`. */
  function SetField(l: Location, i: nat, v: Option<Attr>): (r: Location)
    requires i < 6
    ensures Field(r, i) == v
    ensures forall j | 0 <= j < 6 && j != i :: Field(r, j) == Field(l, j)
  {
    Location(l.fields[i := v])
  }

  /** Two locations with the same six fields are equal. */
  lemma FieldsDetermineLocation(a: Location, b: Location)
    requires forall j | 0 <= j < 6 :: Field(a, j) == Field(b, j)
    ensures a == b
  {
    forall j | 0 <= j < 6 ensures a.fields[j] == b.fields[j] {
      assert Field(a, j) == Field(b, j);
    }
    assert a.fields == b.fields;
  }

  /** `loc[kind]` for a kind of the id table: its raw field. */
  function Coordinate(l: Location, k: Kind): Option<Attr>
    requires k != RootKind
  {
    Field(l, IdIndex(k).value)
  }

  /** The set coordinates from position `i` on, up to the first unset one. */
  function PrefixFrom(l: Location, i: nat): (r: seq<Attr>)
    requires i <= 6
    ensures i + |r| <= 6
    ensures forall j | 0 <= j < |r| :: Field(l, i + j) == Some(r[j])
    ensures i + |r| < 6 ==> Field(l, i + |r|).None?
    decreases 6 - i
  {
    if i == 6 then []
    else match Field(l, i)
      case None => []
      case Some(a) => [a] + PrefixFrom(l, i + 1)
  }

  /** `as_list()`: the coordinates in project-to-metric order, stopping at the
      first unset one. */
  function AsList(l: Location): (r: seq<Attr>)
    ensures |r| <= 6
    ensures forall j | 0 <= j < |r| :: Field(l, j) == Some(r[j])
    ensures |r| < 6 ==> Field(l, |r|).None?
  {
    PrefixFrom(l, 0)
  }

  /** `len(loc)`. */
  function Len(l: Location): nat {
    |AsList(l)|
  }

  /** `len(loc)` counts the coordinates set before the first unset one. */
  lemma LenCountsLeadingCoordinates(l: Location)
    ensures Len(l) <= 6 && (forall j | 0 <= j < Len(l) :: Field(l, j).Some?)
    ensures Len(l) < 6 ==> Field(l, Len(l)).None?
  {
  }

  /** `as_list(stringify=True)`. */
  function AsStrings(l: Location): (r: seq<string>)
    ensures |r| == Len(l) && forall j | 0 <= j < |r| :: r[j] == Str(AsList(l)[j])
  {
    seq(Len(l), j requires 0 <= j < Len(l) => Str(AsList(l)[j]))
  }

  /** No coordinate is set after an unset one. */
  predicate Canonical(l: Location) {
    forall j | Len(l) <= j < 6 :: Field(l, j).None?
  }

  /** Any list of set coordinates is read back unchanged. */
  lemma {:induction false} PrefixFromFields(l: Location, xs: seq<Attr>, i: nat)
    requires i <= 6 && i + |xs| <= 6
    requires forall j | 0 <= j < |xs| :: Field(l, i + j) == Some(xs[j])
    requires i + |xs| < 6 ==> Field(l, i + |xs|).None?
    ensures PrefixFrom(l, i) == xs
    decreases 6 - i
  {
    if i < 6 && |xs| > 0 {
      assert Field(l, i + 0) == Some(xs[0]);
      PrefixFromFields(l, xs[1..], i + 1);
    }
  }

  /** `ScopedLocation(*xs)`: more than six arguments is a `TypeError`. */
  function FromList(xs: seq<Attr>): (r: Result<Location>)
    ensures |xs| > 6 <==> r == Err(TypeError)
    ensures r.Ok? ==> AsList(r.value) == xs && Canonical(r.value)
  {
    if |xs| > 6 then Err(TypeError)
    else
      var l := Location(seq(6, j requires 0 <= j < 6 => if j < |xs| then Some(xs[j]) else None));
      PrefixFromFields(l, xs, 0);
      Ok(l)
  }

  /** A canonical location is rebuilt by its own list. */
  lemma FromListAsList(l: Location)
    ensures FromList(AsList(l)).Ok?
    ensures Canonical(l) <==> FromList(AsList(l)) == Ok(l)
  {
    var r := FromList(AsList(l)).value;
    if Canonical(l) {
      forall j | 0 <= j < 6 ensures Field(r, j) == Field(l, j) {
        if j >= Len(l) { assert Field(r, j).None?; }
      }
      FieldsDetermineLocation(r, l);
    }
  }

  /** `copy()`: the gap-free prefix only. */
  function Copy(l: Location): (r: Location)
    ensures AsList(r) == AsList(l) && Canonical(r)
  {
    FromList(AsList(l)).value
  }

  /** `with_id(x)`: one coordinate appended to the prefix. */
  function WithId(l: Location, x: Attr): (r: Result<Location>)
    ensures Len(l) < 6 ==> r.Ok? && AsList(r.value) == AsList(l) + [x] && Canonical(r.value)
    ensures Len(l) == 6 ==> r == Err(TypeError)
  {
    FromList(AsList(l) + [x])
  }

  /** `popped()`: the prefix without its last coordinate (Python's `[:-1]`,
      so an empty location stays empty). */
  function Popped(l: Location): (r: Location)
    ensures Canonical(r)
    ensures Len(l) > 0 ==> AsList(r) == AsList(l)[..Len(l) - 1]
    ensures Len(l) == 0 ==> r == Empty
  {
    var xs := AsList(l);
    if |xs| == 0 then
      assert FromList([]) == Ok(Empty) by { FromListAsList(Empty); }
      Empty
    else FromList(xs[..|xs| - 1]).value
  }

  /** Appending a coordinate and popping it again gives back the location's
      canonical copy. */
  lemma PoppedWithId(l: Location, x: Attr)
    requires Len(l) < 6
    ensures Popped(WithId(l, x).value) == Copy(l)
  {
    var r := WithId(l, x).value;
    assert AsList(r)[..Len(r) - 1] == AsList(l);
    FromListAsList(Popped(r));
    FromListAsList(Copy(l));
  }

  /** `peek()`: the last set coordinate; an empty location raises `IndexError`. */
  function Peek(l: Location): (r: Result<Attr>)
    ensures Len(l) == 0 <==> r == Err(IndexError)
    ensures r.Ok? ==> r.value == AsList(l)[Len(l) - 1]
  {
    var xs := AsList(l);
    if |xs| == 0 then Err(IndexError) else Ok(xs[|xs| - 1])
  }

  /** The last raw field that is set, searching from position `i - 1` down. */
  function LastSetBelow(l: Location, i: nat): (r: Option<nat>)
    requires i <= 6
    ensures r.Some? ==> r.value < i && Field(l, r.value).Some?
    ensures r.Some? ==> forall j | r.value < j < i :: Field(l, j).None?
    ensures r.None? ==> forall j | 0 <= j < i :: Field(l, j).None?
  {
    if i == 0 then None
    else if Field(l, i - 1).Some? then Some(i - 1)
    else LastSetBelow(l, i - 1)
  }

  /** `pop()`: clears the last set raw field and returns its value, or returns
      `None` when nothing is set. It scans the raw fields, not the prefix. */
  function Pop(l: Location): (r: (Option<Attr>, Location))
    ensures r.0.None? <==> l == Empty
    ensures r.0.None? ==> r.1 == l
    ensures r.0.Some? ==> exists i | 0 <= i < 6 ::
              && Field(l, i) == r.0 && Field(r.1, i).None?
              && (forall j | i < j < 6 :: Field(l, j).None?)
              && (forall j | 0 <= j < 6 && j != i :: Field(r.1, j) == Field(l, j))
  {
    match LastSetBelow(l, 6)
    case None =>
      FieldsDetermineLocation(l, Empty);
      (None, l)
    case Some(i) =>
      (Field(l, i), SetField(l, i, None))
  }

  lemma {:induction false} LastSetOfCanonical(l: Location, i: nat)
    requires Canonical(l) && 0 < Len(l) <= i <= 6
    ensures LastSetBelow(l, i) == Some(Len(l) - 1)
    decreases i
  {
    if i > Len(l) {
      assert Field(l, i - 1).None?;
      LastSetOfCanonical(l, i - 1);
    }
  }

  /** On a canonical location `pop` returns what `peek` shows and leaves what
      `popped` returns. */
  lemma PopIsPeekAndPopped(l: Location)
    requires Canonical(l) && Len(l) > 0
    ensures Pop(l).0 == Some(Peek(l).value)
    ensures Pop(l).1 == Popped(l)
  {
    var n := Len(l);
    LastSetOfCanonical(l, 6);
    var r := SetField(l, n - 1, None);
    assert Pop(l) == (Field(l, n - 1), r);
    var p := Popped(l);
    assert AsList(p) == AsList(l)[..n - 1];
    assert Len(p) == n - 1;
    forall j | 0 <= j < 6 ensures Field(r, j) == Field(p, j) {
      if j < n - 1 {
        assert Field(r, j) == Field(l, j) == Some(AsList(l)[j]);
        assert Field(p, j) == Some(AsList(p)[j]);
      } else if j == n - 1 {
        assert Field(p, j).None?;
      } else {
        assert Field(l, j).None? && Field(p, j).None?;
      }
    }
    FieldsDetermineLocation(r, p);
  }

  /** Setting the field right after the prefix of a canonical location
      extends its list by that coordinate. */
  lemma SetNextField(l: Location, v: Attr)
    requires Len(l) < 6
    ensures Canonical(l) ==> AsList(SetField(l, Len(l), Some(v))) == AsList(l) + [v]
                             && Canonical(SetField(l, Len(l), Some(v)))
  {
    if Canonical(l) {
      PrefixFromFields(SetField(l, Len(l), Some(v)), AsList(l) + [v], 0);
    }
  }

  /** `loc[kind] = value`: only the coordinate right after the prefix may be
      set, and Root is not in the id table (`list.index` raises `ValueError`). */
  function SetItem(l: Location, k: Kind, v: Attr): (r: Result<Location>)
    ensures k == RootKind ==> r == Err(ValueError(NotInTypeOrder))
    ensures k != RootKind && IdIndex(k).value != Len(l) ==> r == Err(ValueError(NotNextCoordinate))
    ensures k != RootKind && IdIndex(k).value == Len(l) ==>
              r.Ok? && Coordinate(r.value, k) == Some(v)
              && (Canonical(l) ==> AsList(r.value) == AsList(l) + [v] && Canonical(r.value))
  {
    if k == RootKind then Err(ValueError(NotInTypeOrder))
    else
      var i := IdIndex(k).value;
      if i != Len(l) then Err(ValueError(NotNextCoordinate))
      else
        SetNextField(l, v);
        Ok(SetField(l, i, Some(v)))
  }

  /** `__setitem__` as written: the message for the out-of-order case
      subscripts the table's `keys()` view, which is not subscriptable, so that
      case raises `TypeError` before the intended `ValueError` is built. */
  function SetItemAsWritten(l: Location, k: Kind, v: Attr): (r: Result<Location>)
    ensures k != RootKind && IdIndex(k).value != Len(l) ==> r == Err(TypeError)
    ensures k == RootKind || IdIndex(k).value == Len(l) ==> r == SetItem(l, k, v)
  {
    if k == RootKind then Err(ValueError(NotInTypeOrder))
    else if IdIndex(k).value != Len(l) then Err(TypeError)
    else Ok(SetField(l, IdIndex(k).value, Some(v)))
  }

  /** The out-of-order case of `__setitem__` raises `TypeError` as written,
      where `ValueError` is meant: setting a client on an empty location. */
  lemma SetItemOutOfOrderRaisesTypeError()
    ensures SetItemAsWritten(Empty, ClientKind, AStr("c")) == Err(TypeError)
    ensures SetItem(Empty, ClientKind, AStr("c")) == Err(ValueError(NotNextCoordinate))
  {
  }

  /** `with_dc(dc)`: a Root node gives the empty location; any other node's id
      is set on a copy, under the rule of `__setitem__`. */
  function WithDc(l: Location, dc: Node): (r: Result<Location>)
    ensures dc.Root? ==> r == Ok(Empty)
    ensures !dc.Root? ==> (r.Ok? <==> IdIndex(KindOf(dc)).value == Len(l))
    ensures !dc.Root? && r.Err? ==> r.error == ValueError(NotNextCoordinate)
    ensures !dc.Root? && r.Ok? ==>
              AsList(r.value) == AsList(l) + [Id(dc)] && Canonical(r.value)
  {
    if dc.Root? then Ok(Empty) else SetItem(Copy(l), KindOf(dc), Id(dc))
  }

  /** `with_dc` over the `__setitem__` as written: a node whose type is not
      the next to be set raises `TypeError`; otherwise it agrees with the
      intended `with_dc`. */
  function WithDcAsWritten(l: Location, dc: Node): (r: Result<Location>)
    ensures !dc.Root? && IdIndex(KindOf(dc)).value != Len(l) ==> r == Err(TypeError)
    ensures dc.Root? || IdIndex(KindOf(dc)).value == Len(l) ==> r == WithDc(l, dc)
  {
    if dc.Root? then Ok(Empty) else SetItemAsWritten(Copy(l), KindOf(dc), Id(dc))
  }

  /* ---------------- `__getitem__` ---------------- */

  /** What `loc[key]` may be given: `None`, a slice (whether it has a start,
      and its stop), a node type, an integer, or anything else. */
  datatype Key = NoKey | SliceKey(hasStart: bool, stop: Bound) | KindKey(kind: Kind) | IntKey(i: int) | OtherKey

  /** A slice stop: absent, an integer, a node type, or anything else. */
  datatype Bound = NoBound | IntBound(i: int) | KindBound(kind: Kind) | OtherBound

  /** A coordinate (possibly `None`) or a sliced location. */
  datatype Got = Coord(attr: Option<Attr>) | Sub(loc: Location)

  /** Python's clamping of a slice end `idx` into `0 .. n`. */
  function SliceEnd(n: nat, idx: int): (r: nat)
    ensures r <= n
    ensures idx >= 0 ==> r == if idx < n then idx else n
    ensures idx < 0 ==> r == if n + idx > 0 then n + idx else 0
  {
    if idx >= 0 then (if idx < n then idx else n)
    else if n + idx > 0 then n + idx else 0
  }

  /** `loc[:kind]`: the prefix up to and including the kind's own coordinate;
      Root gives the empty location. */
  function SliceTo(l: Location, k: Kind): (r: Location)
    ensures k == RootKind ==> r == Empty
    ensures k != RootKind ==> AsList(r) == AsList(l)[..SliceEnd(Len(l), Depth(k))] && Canonical(r)
    ensures Len(r) <= Depth(k)
  {
    if k == RootKind then Empty
    else FromList(AsList(l)[..SliceEnd(Len(l), Depth(k))]).value
  }

  /** `loc[key]`. */
  function Index(l: Location, key: Key): (r: Result<Got>)
    ensures key.NoKey? ==> r == Ok(Sub(Empty))
    ensures key.SliceKey? && (key.hasStart || key.stop.NoBound?) ==> r == Err(ValueError(BadSliceForm))
    ensures key.SliceKey? && !key.hasStart && key.stop.KindBound? ==> r == Ok(Sub(SliceTo(l, key.stop.kind)))
    ensures key.SliceKey? && !key.hasStart && key.stop.IntBound? ==>
              r.Ok? && r.value.Sub? && AsList(r.value.loc) == AsList(l)[..SliceEnd(Len(l), key.stop.i)]
    ensures key.SliceKey? && !key.hasStart && key.stop.OtherBound? ==> r == Err(ValueError(NotInTypeOrder))
    ensures key == KindKey(RootKind) ==> r == Ok(Coord(None))
    ensures key.KindKey? && key.kind != RootKind ==> r == Ok(Coord(Coordinate(l, key.kind)))
    ensures key.IntKey? && 0 <= key.i < 6 ==> r == Ok(Coord(Field(l, key.i)))
    ensures key.IntKey? && key.i >= 6 ==> r == Err(IndexError)
    ensures key.IntKey? && key.i < 0 && Len(l) == 0 ==> r == Ok(Coord(None))
    ensures key.IntKey? && key.i < 0 && 0 < Len(l) && Len(l) + key.i < 0 ==> r == Err(IndexError)
    ensures key.IntKey? && key.i < 0 && 0 <= Len(l) + key.i ==> r == Ok(Coord(Some(AsList(l)[Len(l) + key.i])))
    ensures key.OtherKey? ==> r == Err(ValueError(InvalidKey))
  {
    match key
    case NoKey => Ok(Sub(Empty))
    case SliceKey(hasStart, stop) =>
      if hasStart || stop.NoBound? then Err(ValueError(BadSliceForm))
      else (match stop
        case KindBound(k) => Ok(Sub(SliceTo(l, k)))
        case IntBound(i) => Ok(Sub(FromList(AsList(l)[..SliceEnd(Len(l), i)]).value))
        case OtherBound => Err(ValueError(NotInTypeOrder)))
    case KindKey(k) => if k == RootKind then Ok(Coord(None)) else Ok(Coord(Coordinate(l, k)))
    case IntKey(i) =>
      if i < 0 then
        if Len(l) == 0 then Ok(Coord(None))
        else if Len(l) + i < 0 then Err(IndexError)
        else Ok(Coord(Some(AsList(l)[Len(l) + i])))
      else if i >= 6 then Err(IndexError)
      else Ok(Coord(Field(l, i)))
    case OtherKey => Err(ValueError(InvalidKey))
  }

  /** Indexing by the kind at position `i` of the id table reads the same raw
      field as indexing by `i`. */
  lemma IndexByKindIsIndexByPosition(l: Location, i: nat)
    requires i < 6
    ensures Index(l, KindKey(IdKinds[i])) == Index(l, IntKey(i))
  {
  }

  /* ---------------- stub nodes ---------------- */

  /** `new_dataclass_from_id()`: a fresh node of the type at the location's
      depth, carrying the last coordinate as its id. A Project comes with its
      default client, as its constructor's default does. An empty location
      raises `IndexError`. */
  function NewDataclassFromId(l: Location): (r: Result<Node>)
    ensures Len(l) == 0 <==> r == Err(IndexError)
    ensures r.Ok? ==> Depth(KindOf(r.value)) == Len(l) && GetId(r.value) == Some(Peek(l).value)
  {
    var xs := AsList(l);
    if |xs| == 0 then Err(IndexError)
    else
      IdKindAt(|xs| - 1);
      Ok(Stub(IdKinds[|xs| - 1], xs[|xs| - 1]))
  }

  /** A node of kind `k` built from its id alone, with its constructor's defaults. */
  function Stub(k: Kind, x: Attr): (r: Node)
    requires k != RootKind
    ensures KindOf(r) == k && GetId(r) == Some(x)
  {
    match k
    case ProjectKind => Project(x, [Entry(AStr(DefaultClientName), Child(DefaultClient))])
    case ClientKind => Client(x, [], None)
    case RoundKind => Round(x, [])
    case TrialKind => Trial(x, FreshInfo, [])
    case SplitKind => TrialSplit(x, FreshInfo, [])
    case MetricKind => MetricResults(x, [], [], true)
  }

  /** Every stub is well formed: its only child, a project's default client,
      sits under its own name. */
  lemma StubWellFormed(k: Kind, x: Attr)
    requires k != RootKind
    ensures WellFormed(Stub(k, x))
  {
    if k == ProjectKind {
      assert WellFormed(DefaultClient);
      assert ShapeOk(Stub(k, x));
    }
  }

  /** `new_dataclass_from_id()` as written: Trial and TrialSplit inherit their
      trial fields first, so the single positional argument fills
      `hyperparams` and the node's own number keeps its default `0`. */
  function NewDataclassFromIdAsWritten(l: Location): (r: Result<Node>)
    ensures Len(l) == 0 <==> r == Err(IndexError)
    ensures r.Ok? && Len(l) != 4 && Len(l) != 5 ==> r == NewDataclassFromId(l)
    ensures r.Ok? && (Len(l) == 4 || Len(l) == 5) ==>
              KindOf(r.value) == (if Len(l) == 4 then TrialKind else SplitKind) && GetId(r.value) == Some(AInt(0))
  {
    var xs := AsList(l);
    if |xs| == 0 then Err(IndexError)
    else
      // depth 4 is a Trial, depth 5 a TrialSplit
      var info := TrialInfo(PositionalId(xs[|xs| - 1]), Planned, "");
      if |xs| == 4 then Ok(Trial(AInt(0), info, []))
      else if |xs| == 5 then Ok(TrialSplit(AInt(0), info, []))
      else NewDataclassFromId(l)
  }

  /** The stub sits back at its own address: re-adding its id to the parent
      location gives the location back. */
  lemma NewDataclassFromIdReaddresses(l: Location)
    requires Canonical(l) && Len(l) > 0
    ensures WithDc(Popped(l), NewDataclassFromId(l).value) == Ok(l)
  {
    var n := Len(l);
    var dc := NewDataclassFromId(l).value;
    var p := Popped(l);
    assert Len(p) == n - 1 && IdIndex(KindOf(dc)).value == n - 1;
    var r := WithDc(p, dc);
    assert AsList(r.value) == AsList(l)[..n - 1] + [AsList(l)[n - 1]];
    assert AsList(l)[..n - 1] + [AsList(l)[n - 1]] == AsList(l);
    FromListAsList(r.value);
    FromListAsList(l);
  }

  /** As written the round trip fails: the stub for trial 5 of round 0 is
      trial 0, so it addresses trial 0. */
  lemma NewDataclassFromIdAsWrittenMisaddresses()
    ensures var l := FromList([AStr("p"), AStr("c"), AInt(0), AInt(5)]).value;
            var dc := NewDataclassFromIdAsWritten(l).value;
            Id(dc) == AInt(0) && WithDc(Popped(l), dc).Ok? && WithDc(Popped(l), dc) != Ok(l)
  {
    var xs := [AStr("p"), AStr("c"), AInt(0), AInt(5)];
    var l := FromList(xs).value;
    assert AsList(l)[3] == AInt(5);
    AsWrittenMisaddressesTrial(l);
  }

  /** The stub as written for any trial location other than trial 0 is
      placed at trial 0 of the same round. */
  lemma AsWrittenMisaddressesTrial(l: Location)
    requires Len(l) == 4 && AsList(l)[3] != AInt(0)
    ensures var dc := NewDataclassFromIdAsWritten(l).value;
            Id(dc) == AInt(0) && WithDc(Popped(l), dc).Ok? && WithDc(Popped(l), dc) != Ok(l)
  {
    var dc := NewDataclassFromIdAsWritten(l).value;
    assert KindOf(dc) == TrialKind && Id(dc) == AInt(0);
    var p := Popped(l);
    assert Len(p) == 3;
    var w := WithDc(p, dc);
    assert w.Ok? && AsList(w.value) == AsList(p) + [AInt(0)];
    assert AsList(w.value)[3] != AsList(l)[3];
  }
}
