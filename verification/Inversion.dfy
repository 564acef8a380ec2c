/** Comparing the other way round gives the inverse of every entry, in canonical order. */
module Inversion {
  import opened Sorting
  import opened Identities
  import opened Declarations
  import opened Comparisons

  function Flip(change: string): string {
    if change == "added" then "removed" else if change == "removed" then "added" else change
  }

  function InvertChange(c: ObjectChange): ObjectChange {
    ObjectChange(Flip(c.change), c.objectIdentity, c.parentIdentity, SwapChanges(c.propertyChanges))
  }

  function InvertAll(changes: seq<ObjectChange>): (r: seq<ObjectChange>)
    ensures |r| == |changes| && forall i :: 0 <= i < |r| ==> r[i] == InvertChange(changes[i])
  {
    if changes == [] then [] else InvertAll(changes[..|changes| - 1]) + [InvertChange(changes[|changes| - 1])]
  }

  /** Objects on both sides have the same parent. */
  ghost predicate SameParents(a: Objects, b: Objects) {
    forall i :: i in a && i in b ==> a[i].parentIdentity == b[i].parentIdentity
  }

  lemma DescribesInverse(a: Objects, b: Objects, i: Identity, c: ObjectChange)
    requires Describes(a, b, i, c) && SameParents(a, b)
    ensures Describes(b, a, i, InvertChange(c))
  {
    if i in a && i in b {
      DiffSwaps(a[i].properties, b[i].properties, c.propertyChanges);
    }
  }

  /** An entry is determined by its identity. */
  lemma DescribesUnique(a: Objects, b: Objects, i: Identity, j: Identity, c: ObjectChange, d: ObjectChange)
    requires Describes(a, b, i, c) && Describes(a, b, j, d) && c.objectIdentity == d.objectIdentity
    ensures c == d
  {
    hide IdentityJson;
    IdentityJsonInjective(i, j);
    if i in a && i in b {
      DiffUnique(a[i].properties, b[i].properties, c.propertyChanges, d.propertyChanges);
    }
  }

  lemma DescribesDiffers(a: Objects, b: Objects, i: Identity, c: ObjectChange)
    requires Describes(a, b, i, c)
    ensures Differs(a, b, i) && Differs(b, a, i) && c.objectIdentity == IdentityJson(i)
  {
    if i in a && i in b {
      DiffEmpty(a[i].properties, b[i].properties, c.propertyChanges);
    }
  }

  /** Two projections have one comparison. */
  lemma ListingUnique(a: Objects, b: Objects, u: seq<ObjectChange>, v: seq<ObjectChange>)
    requires IsListing(a, b, u) && IsListing(a, b, v)
    ensures u == v
  {
    forall c ensures c in u <==> c in v {
      if c in u { ListedBoth(a, b, u, v, c); }
      if c in v { ListedBoth(a, b, v, u, c); }
    }
    StrictlyOrderedUnique(ChangeKey, u, v);
  }

  lemma ListedBoth(a: Objects, b: Objects, u: seq<ObjectChange>, v: seq<ObjectChange>, c: ObjectChange)
    requires IsListing(a, b, u) && IsListing(a, b, v) && c in u
    ensures c in v
  {
    hide Describes, Differs;
    var i :| Describes(a, b, i, c);
    DescribesDiffers(a, b, i, c);
    assert ListsIdentity(v, i);
    var d :| d in v && d.objectIdentity == IdentityJson(i);
    var j :| Describes(a, b, j, d);
    DescribesUnique(a, b, i, j, c, d);
  }

  lemma InvertedListing(a: Objects, b: Objects, changes: seq<ObjectChange>)
    requires IsListing(a, b, changes) && SameParents(a, b)
    ensures IsListing(b, a, SortBy(ChangeKey, InvertAll(changes)))
  {
    hide Describes, Differs, InvertChange, IdentityJson;
    var inverted := InvertAll(changes);
    forall k, l | 0 <= k < l < |inverted| ensures inverted[k].objectIdentity != inverted[l].objectIdentity {
      InvertedIdentity(changes[k]);
      InvertedIdentity(changes[l]);
      assert changes[k] in changes && changes[l] in changes;
      if changes[k].objectIdentity == changes[l].objectIdentity {
        var i :| Describes(a, b, i, changes[k]);
        var j :| Describes(a, b, j, changes[l]);
        DescribesUnique(a, b, i, j, changes[k], changes[l]);
        KeyLessTotal(ChangeKey(changes[k]), ChangeKey(changes[l]));
      }
    }
    var all := a.Keys + b.Keys;
    forall c | c in inverted ensures exists i :: i in all && Describes(b, a, i, c) {
      var k :| 0 <= k < |inverted| && inverted[k] == c;
      assert changes[k] in changes;
      var i :| Describes(a, b, i, changes[k]);
      DescribesInverse(a, b, i, changes[k]);
      DescribesDiffers(a, b, i, changes[k]);
      DiffersKnown(a, b, i);
    }
    forall i | Differs(b, a, i) ensures ListsIdentity(inverted, i) && i in all {
      DiffersSymmetric(a, b, i);
      DiffersKnown(a, b, i);
      assert ListsIdentity(changes, i);
      var c :| c in changes && c.objectIdentity == IdentityJson(i);
      var k :| 0 <= k < |changes| && changes[k] == c;
      InvertedIdentity(changes[k]);
      assert inverted[k] in inverted;
    }
    SortedListing(b, a, all, inverted);
  }

  lemma InvertedIdentity(c: ObjectChange)
    ensures InvertChange(c).objectIdentity == c.objectIdentity
  {
  }

  lemma DiffersKnown(a: Objects, b: Objects, i: Identity)
    requires Differs(a, b, i)
    ensures i in a || i in b
  {
  }

  lemma DiffersSymmetric(a: Objects, b: Objects, i: Identity)
    ensures Differs(a, b, i) <==> Differs(b, a, i)
  {
    if i in a && i in b {
      SameSymmetric(a[i].properties, b[i].properties);
    }
  }

  lemma SameSymmetric(left: Properties, right: Properties)
    ensures SameProperties(left, right) <==> SameProperties(right, left)
  {
    if SameProperties(left, right) {
      forall p ensures Lookup(right, p) == Lookup(left, p) { assert Lookup(left, p) == Lookup(right, p); }
    }
    if SameProperties(right, left) {
      forall p ensures Lookup(left, p) == Lookup(right, p) { assert Lookup(right, p) == Lookup(left, p); }
    }
  }

  lemma {:induction false} InvertedProperties(changes: seq<ObjectChange>)
    ensures Total(PropertyWeight, InvertAll(changes)) == Total(PropertyWeight, changes)
  {
    if changes != [] {
      var n := |changes| - 1;
      InvertedProperties(changes[..n]);
      TotalSnoc(PropertyWeight, InvertAll(changes[..n]), InvertChange(changes[n]));
    }
  }

  /** The comparison in the other direction is the inverse of each entry, sorted, with added and removed counts swapped. */
  lemma ComparisonInverts(a: Objects, b: Objects, u: seq<ObjectChange>, s: Summary, v: seq<ObjectChange>, t: Summary)
    requires SameParents(a, b)
    requires IsListing(a, b, u) && SummaryOf(a, b, s) && SummaryCounts(u, s)
    requires IsListing(b, a, v) && SummaryOf(b, a, t) && SummaryCounts(v, t)
    ensures v == SortBy(ChangeKey, InvertAll(u))
    ensures t == Summary(s.removed, s.added, s.changed, s.unchangedObjects, s.propertyChanges)
  {
    hide IsListing, SameProperties;
    InvertedListing(a, b, u);
    ListingUnique(b, a, v, SortBy(ChangeKey, InvertAll(u)));
    SortByTotal(PropertyWeight, ChangeKey, InvertAll(u));
    InvertedProperties(u);
    forall i | i in a && i in b ensures SameProperties(a[i].properties, b[i].properties) <==> SameProperties(b[i].properties, a[i].properties) {
      SameSymmetric(a[i].properties, b[i].properties);
    }
    assert ChangedIds(a, b) == ChangedIds(b, a) && UnchangedIds(a, b) == UnchangedIds(b, a);
  }
}
