/** The order a folder's listing comes in: `os.listdir` promises no order,
    and the keys a loaded node gets must not depend on it. */
module ListingOrder {
  import opened OnDisk
  import Lexical

  /** Stripping a listing works name by name: a split listing strips to the
      two stripped halves. */
  lemma {:induction false} StripDelimitedConcat(p: seq<string>, q: seq<string>)
    ensures StripDelimited(p + q) == StripDelimited(p) + StripDelimited(q)
    decreases |p|
  {
    if |p| > 0 {
      assert (p + q)[1..] == p[1..] + q;
      StripDelimitedConcat(p[1..], q);
    } else {
      assert p + q == q;
    }
  }

  /** Taking one element out of a sequence takes it out of its multiset. */
  lemma RemoveAt<T>(b: seq<T>, i: nat)
    requires i < |b|
    ensures b == b[..i] + [b[i]] + b[i + 1..]
    ensures multiset(b[..i] + b[i + 1..]) == multiset(b) - multiset{b[i]}
  {
    assert b == b[..i] + [b[i]] + b[i + 1..];
  }

  /** Stripping a listing with its `i`-th name singled out. */
  lemma StripAt(b: seq<string>, i: nat)
    requires i < |b|
    ensures multiset(StripDelimited(b)) == multiset(StripDelimited([b[i]])) + multiset(StripDelimited(b[..i] + b[i + 1..]))
  {
    var l, r := b[..i], b[i + 1..];
    RemoveAt(b, i);
    StripDelimitedConcat(l + [b[i]], r);
    StripDelimitedConcat(l, [b[i]]);
    StripDelimitedConcat(l, r);
  }

  /** Listings with the same names, in any order, strip to the same names. */
  lemma {:induction false} StripDelimitedPermutes(a: seq<string>, b: seq<string>)
    requires multiset(a) == multiset(b)
    ensures multiset(StripDelimited(a)) == multiset(StripDelimited(b))
    decreases |a|
  {
    if |a| == 0 {
      assert |b| == |multiset(b)| == 0;
    } else {
      assert a[0] in multiset(b);
      var i :| 0 <= i < |b| && b[i] == a[0];
      RemoveAt(b, i);
      RemoveAt(a, 0);
      assert a[..0] + a[1..] == a[1..];
      StripDelimitedPermutes(a[1..], b[..i] + b[i + 1..]);
      StripAt(b, i);
      StripAt(a, 0);
    }
  }

  /** The child keys do not depend on the order the directory listing came
      in: any reordering of the listing gives the same keys, or the same
      error. */
  lemma ChildKeysIgnoreListingOrder(a: seq<string>, b: seq<string>, isList: bool)
    requires multiset(a) == multiset(b)
    ensures ChildKeys(a, isList) == ChildKeys(b, isList)
  {
    StripDelimitedPermutes(a, b);
    Lexical.SortIgnoresOrder(StripDelimited(a), StripDelimited(b));
  }
}
