/** Addressing inside the metadata tree: `BaseDataclass.__getitem__` looks a
    location up one coordinate per level, and `ReplaceAt` is the value-level
    view of mutating the node such a lookup returned. */
module Tree {
  import opened Errors
  import opened Kinds
  import opened Nodes
  import opened Locations

  /** `node[loc]`: at a leaf type, or when the location's coordinate for the
      child type is unset, the node itself; otherwise the child under that
      coordinate, looked up in turn. An absent key raises `KeyError`, but
      its message is built from `self.shallow()`, whose invariant check raises
      `ValueError` first on a map node holding a non-string key; descending
      into a placeholder or a metric value raises `TypeError`. */
  function Lookup(n: Node, l: Location): (r: Result<Node>)
    ensures KindOf(n) == MetricKind ==> r == Ok(n)
    ensures KindOf(n) != MetricKind && Coordinate(l, SubKind(KindOf(n)).value).None? ==> r == Ok(n)
    ensures (KindOf(n) != MetricKind && Coordinate(l, SubKind(KindOf(n)).value).Some? &&
             Coordinate(l, SubKind(KindOf(n)).value).value !in SublocationKeys(n)) ==>
              r == if IsMapKind(KindOf(n)) && !KeysAreStrings(n) then Err(ValueError(NonStringKey)) else Err(KeyError)
    ensures r.Err? ==> r.error == KeyError || r.error == TypeError || r.error == ValueError(NonStringKey)
    decreases n
  {
    match SubKind(KindOf(n))
    case None => Ok(n)
    case Some(sk) =>
      match Coordinate(l, sk)
      case None => Ok(n)
      case Some(a) =>
        if a !in SublocationKeys(n) then
          match Shallow(n)
          case Err(e) => Err(e)
          case Ok(_) => Err(KeyError)
        else match SlotAt(n, a)
          case Child(c) =>
            SlotAtSmaller(n, a);
            Lookup(c, l)
          case _ => Err(TypeError)
  }

  /** Lookup descends through a stored child: when the parent's coordinate
      names a key holding a child, the lookup continues in that child. */
  lemma LookupDescends(n: Node, l: Location)
    requires KindOf(n) != MetricKind
    requires Coordinate(l, SubKind(KindOf(n)).value).Some?
    requires Coordinate(l, SubKind(KindOf(n)).value).value in SublocationKeys(n)
    ensures SlotAt(n, Coordinate(l, SubKind(KindOf(n)).value).value).Child? ==>
              Lookup(n, l) == Lookup(SlotAt(n, Coordinate(l, SubKind(KindOf(n)).value).value).node, l)
    ensures !SlotAt(n, Coordinate(l, SubKind(KindOf(n)).value).value).Child? ==> Lookup(n, l) == Err(TypeError)
  {
  }

  /** In a well-formed tree the lookup follows the location's prefix: from a
      node no deeper than the prefix, it ends at the depth equal to the
      prefix length, on the node whose id is the last coordinate. */
  lemma LookupAddresses(n: Node, l: Location)
    requires WellFormed(n) && Depth(KindOf(n)) <= Len(l) && Lookup(n, l).Ok?
    ensures Depth(KindOf(Lookup(n, l).value)) == Len(l)
    ensures Depth(KindOf(n)) < Len(l) ==> GetId(Lookup(n, l).value) == Some(AsList(l)[Len(l) - 1])
  {
    LookupReachesDepth(n, l);
    if Depth(KindOf(n)) < Len(l) {
      LookupEndsOnLastId(n, l);
    }
  }

  lemma {:induction false} LookupReachesDepth(n: Node, l: Location)
    requires WellFormed(n) && Depth(KindOf(n)) <= Len(l) && Lookup(n, l).Ok?
    ensures Depth(KindOf(Lookup(n, l).value)) == Len(l)
    decreases n
  {
    var d := Depth(KindOf(n));
    if d == Len(l) {
      LookupStopsAtPrefixEnd(n, l);
    } else {
      var c := LookupChild(n, l, AsList(l)[d]);
      LookupReachesDepth(c, l);
    }
  }

  lemma {:induction false} LookupEndsOnLastId(n: Node, l: Location)
    requires WellFormed(n) && Depth(KindOf(n)) < Len(l) && Lookup(n, l).Ok?
    ensures GetId(Lookup(n, l).value) == Some(AsList(l)[Len(l) - 1])
    decreases n
  {
    var d := Depth(KindOf(n));
    var a := AsList(l)[d];
    var c := LookupChild(n, l, a);
    if d + 1 < Len(l) {
      LookupEndsOnLastId(c, l);
    } else {
      LookupStopsAtPrefixEnd(c, l);
      assert Lookup(n, l) == Ok(c);
      assert Len(l) - 1 == d;
    }
  }

  /** The child a lookup continues in when the coordinate for the next type
      is the `d`-th element of the prefix. */
  lemma LookupChild(n: Node, l: Location, a: Attr) returns (c: Node)
    requires WellFormed(n) && Depth(KindOf(n)) < Len(l) && Lookup(n, l).Ok?
    requires a == AsList(l)[Depth(KindOf(n))]
    ensures c < n && WellFormed(c) && GetId(c) == Some(a) && Depth(KindOf(c)) == Depth(KindOf(n)) + 1
    ensures Lookup(n, l) == Lookup(c, l)
  {
    var sk := SubKind(KindOf(n)).value;
    assert IdIndex(sk).value == Depth(KindOf(n));
    assert Coordinate(l, sk) == Some(a);
    LookupStep(n, l, a);
    c := SlotAt(n, a).node;
  }

  /** A lookup from a node as deep as the prefix stays on that node. */
  lemma LookupStopsAtPrefixEnd(n: Node, l: Location)
    requires Depth(KindOf(n)) == Len(l)
    ensures Lookup(n, l) == Ok(n)
  {
    if KindOf(n) != MetricKind {
      var sk := SubKind(KindOf(n)).value;
      assert IdIndex(sk).value == Len(l) < 6;
      assert Coordinate(l, sk).None?;
    }
  }

  /** One step of a lookup in a well-formed tree: the coordinate names a
      stored child of the next type carrying that coordinate as its id. */
  lemma LookupStep(n: Node, l: Location, a: Attr)
    requires WellFormed(n) && KindOf(n) != MetricKind && Lookup(n, l).Ok?
    requires Coordinate(l, SubKind(KindOf(n)).value) == Some(a)
    ensures a in SublocationKeys(n) && SlotAt(n, a).Child?
    ensures SlotAt(n, a).node < n && WellFormed(SlotAt(n, a).node)
    ensures KindOf(SlotAt(n, a).node) == SubKind(KindOf(n)).value && GetId(SlotAt(n, a).node) == Some(a)
    ensures Lookup(n, l) == Lookup(SlotAt(n, a).node, l)
  {
    WellFormedSlot(n, a);
    WellFormedSlotChild(n, a);
    SlotAtSmaller(n, a);
  }

  /** The tree with the node that `Lookup(n, l)` returns replaced by `m`:
      every node on the way keeps its keys and own fields. */
  function ReplaceAt(n: Node, l: Location, m: Node): (r: Node)
    requires Lookup(n, l).Ok?
    ensures Lookup(n, l) == Ok(n) ==> r == m
    ensures Lookup(n, l) != Ok(n) ==> Bare(r) == Bare(n) && SublocationKeys(r) == SublocationKeys(n)
    ensures Lookup(r, l) == Lookup(m, l)
    decreases n
  {
    match SubKind(KindOf(n))
    case None => m
    case Some(sk) =>
      match Coordinate(l, sk)
      case None => m
      case Some(a) =>
        var c := SlotAt(n, a).node;
        SlotAtSmaller(n, a);
        NodeNotBelowItself(n, a, l);
        var r := WithSlotAt(n, a, Child(ReplaceAt(c, l, m)));
        assert Lookup(r, l) == Lookup(ReplaceAt(c, l, m), l) by {
          LookupDescends(r, l);
        }
        r
  }

  /** A node is not found below its own child. */
  lemma NodeNotBelowItself(n: Node, a: Attr, l: Location)
    requires a in SublocationKeys(n) && SlotAt(n, a).Child? && Lookup(SlotAt(n, a).node, l).Ok?
    ensures Lookup(SlotAt(n, a).node, l).value != n
  {
    SlotAtSmaller(n, a);
    LookupSmaller(SlotAt(n, a).node, l);
  }

  /** What a lookup returns is no larger than where it started. */
  lemma {:induction false} LookupSmaller(n: Node, l: Location)
    requires Lookup(n, l).Ok?
    ensures Lookup(n, l).value == n || Lookup(n, l).value < n
    decreases n
  {
    if KindOf(n) != MetricKind {
      match Coordinate(l, SubKind(KindOf(n)).value)
      case None =>
      case Some(a) =>
        SlotAtSmaller(n, a);
        LookupSmaller(SlotAt(n, a).node, l);
    }
  }

  /** Replacing a node by itself changes nothing. */
  lemma {:induction false} ReplaceAtSelf(n: Node, l: Location)
    requires Lookup(n, l).Ok?
    ensures ReplaceAt(n, l, Lookup(n, l).value) == n
    decreases n
  {
    if KindOf(n) != MetricKind {
      match Coordinate(l, SubKind(KindOf(n)).value)
      case None =>
      case Some(a) =>
        var c := SlotAt(n, a).node;
        SlotAtSmaller(n, a);
        ReplaceAtSelf(c, l);
        WithSlotAtSame(n, a);
    }
  }

  /** Replacing a node keeps the tree well formed when the replacement is well
      formed and has the replaced node's type and id. */
  lemma {:induction false} ReplaceAtPreservesWellFormed(n: Node, l: Location, m: Node)
    requires WellFormed(n) && WellFormed(m) && Lookup(n, l).Ok?
    requires KindOf(m) == KindOf(Lookup(n, l).value) && GetId(m) == GetId(Lookup(n, l).value)
    ensures WellFormed(ReplaceAt(n, l, m))
    decreases n
  {
    if KindOf(n) != MetricKind {
      match Coordinate(l, SubKind(KindOf(n)).value)
      case None =>
      case Some(a) =>
        var c := SlotAt(n, a).node;
        SlotAtSmaller(n, a);
        WellFormedSlotChild(n, a);
        ReplaceAtPreservesWellFormed(c, l, m);
        ReplaceAtKeepsKindAndId(c, l, m);
        WithSlotAtPreservesWellFormed(n, a, ReplaceAt(c, l, m));
    }
  }

  /** A node with a descendant replaced by one of the same type and id keeps
      its own type and id. */
  lemma ReplaceAtKeepsKindAndId(c: Node, l: Location, m: Node)
    requires Lookup(c, l).Ok?
    requires KindOf(m) == KindOf(Lookup(c, l).value) && GetId(m) == GetId(Lookup(c, l).value)
    ensures KindOf(ReplaceAt(c, l, m)) == KindOf(c) && GetId(ReplaceAt(c, l, m)) == GetId(c)
  {
    if Lookup(c, l) != Ok(c) {
      BareKindAndId(ReplaceAt(c, l, m), c);
    }
  }

  /** Two locations agree on the first `k` coordinates. */
  predicate AgreeBelow(p: Location, l: Location, k: nat)
    requires k <= 6
  {
    forall j | 0 <= j < k :: Field(p, j) == Field(l, j)
  }

  /** Looking up a longer location through a replaced node continues in the
      replacement: the path to the replaced node only reads coordinates the
      two locations share. */
  lemma {:induction false} LookupThroughReplaced(n: Node, p: Location, m: Node, l: Location)
    requires Lookup(n, p).Ok? && Canonical(p) && AgreeBelow(p, l, Len(p))
    ensures Lookup(ReplaceAt(n, p, m), l) == Lookup(m, l)
    decreases n
  {
    if KindOf(n) != MetricKind {
      var sk := SubKind(KindOf(n)).value;
      match Coordinate(p, sk)
      case None =>
      case Some(a) =>
        assert IdIndex(sk).value < Len(p);
        assert Coordinate(l, sk) == Some(a);
        var c := SlotAt(n, a).node;
        SlotAtSmaller(n, a);
        NodeNotBelowItself(n, a, p);
        LookupThroughReplaced(c, p, m, l);
        LookupDescends(ReplaceAt(n, p, m), l);
    }
  }

  /** Every node a lookup reaches in a well-formed tree is well formed. */
  lemma {:induction false} LookupWellFormed(n: Node, l: Location)
    requires WellFormed(n) && Lookup(n, l).Ok?
    ensures WellFormed(Lookup(n, l).value)
    decreases n
  {
    if KindOf(n) != MetricKind {
      match Coordinate(l, SubKind(KindOf(n)).value)
      case None =>
      case Some(a) =>
        SlotAtSmaller(n, a);
        WellFormedSlotChild(n, a);
        LookupWellFormed(SlotAt(n, a).node, l);
    }
  }
}
