/**
 The directional comparison of two projections: objects only on one side, and property
 changes of the objects on both, listed in canonical order and counted.
 */
module Comparisons {
  import opened Sorting
  import opened JsonText
  import opened JsonOrder
  import opened Outcomes
  import opened Identities
  import opened Declarations
  import opened PropertyChecks

  type Objects = map<Identity, ComparableObject>

  /** One entry of a comparison; its fields are texts and JSON, as in the persisted artifact. */
  datatype ObjectChange = ObjectChange(change: string, objectIdentity: Json, parentIdentity: Json, propertyChanges: seq<PropertyChange>)

  datatype Summary = Summary(added: int, removed: int, changed: int, unchangedObjects: int, propertyChanges: int)

  // ----- property changes

  /** Values are equal when their canonical texts are. */
  predicate SidesEqual(left: Side, right: Side) {
    match (left, right)
    case (Missing, Missing) => true
    case (Present(v), Present(w)) => Render(v) == Render(w)
    case _ => false
  }

  lemma SidesEqualSame(left: Side, right: Side)
    ensures SidesEqual(left, right) <==> left == right
  {
    if left.Present? && right.Present? && Render(left.value) == Render(right.value) {
      RenderInjective(left.value, right.value);
    }
  }

  function PointerKey(c: PropertyChange): SortKey { [c.property] }

  /** `changes` lists exactly the properties that differ, each once, in order, with both sides. */
  ghost predicate IsDiff(left: Properties, right: Properties, changes: seq<PropertyChange>) {
    && StrictlyOrdered(PointerKey, changes)
    && (forall c :: c in changes ==> ChangeOf(left, right, c))
    && (forall p :: Lookup(left, p) != Lookup(right, p) ==> Lists(changes, p))
  }

  predicate ChangeOf(left: Properties, right: Properties, c: PropertyChange) {
    c.baseline == Lookup(left, c.property) && c.candidate == Lookup(right, c.property) && c.baseline != c.candidate
  }

  ghost predicate Lists(changes: seq<PropertyChange>, pointer: string) {
    exists c :: c in changes && c.property == pointer
  }

  /** The differences among the properties `keys`. */
  ghost predicate DiffAmong(left: Properties, right: Properties, keys: seq<string>, changes: seq<PropertyChange>) {
    && StrictlyOrdered(PointerKey, changes)
    && (forall c :: c in changes ==> ChangeOf(left, right, c) && c.property in keys)
    && (forall p :: p in keys && Lookup(left, p) != Lookup(right, p) ==> Lists(changes, p))
  }

  lemma DiffStep(left: Properties, right: Properties, keys: seq<string>, key: string, changes: seq<PropertyChange>)
    requires DiffAmong(left, right, keys, changes) && StrictlyOrdered(TextKey, keys + [key])
    ensures Lookup(left, key) == Lookup(right, key) ==> DiffAmong(left, right, keys + [key], changes)
    ensures Lookup(left, key) != Lookup(right, key) ==>
      DiffAmong(left, right, keys + [key], changes + [PropertyChange(key, Lookup(left, key), Lookup(right, key))])
  {
    if Lookup(left, key) != Lookup(right, key) {
      var c := PropertyChange(key, Lookup(left, key), Lookup(right, key));
      var next := changes + [c];
      LastOrdered(keys, key, changes, c);
      assert c in next;
      forall p | Lists(changes, p) ensures Lists(next, p) {
        var b :| b in changes && b.property == p;
        assert b in next;
      }
    }
  }

  lemma LastOrdered(keys: seq<string>, key: string, changes: seq<PropertyChange>, c: PropertyChange)
    requires StrictlyOrdered(TextKey, keys + [key]) && StrictlyOrdered(PointerKey, changes) && c.property == key
    requires forall b :: b in changes ==> b.property in keys
    ensures StrictlyOrdered(PointerKey, changes + [c])
  {
    var all := keys + [key];
    forall i | 0 <= i < |changes| ensures KeyLess(PointerKey(changes[i]), PointerKey(c)) {
      assert changes[i] in changes;
      var k :| 0 <= k < |keys| && keys[k] == changes[i].property;
      assert KeyLess(TextKey(all[k]), TextKey(all[|keys|]));
    }
  }

  /** The loop over the union of the properties, in sorted order. */
  method DiffProperties(left: Properties, right: Properties) returns (changes: seq<PropertyChange>)
    ensures IsDiff(left, right, changes)
  {
    hide SidesEqual, StrictlyOrdered, DiffAmong, IsDiff, Lookup, TextKey;
    TextKeyInjective();
    var keys := SortSet(TextKey, left.Keys + right.Keys);
    changes := [];
    AmongNone(left, right);
    for i := 0 to |keys|
      invariant DiffAmong(left, right, keys[..i], changes)
    {
      var key := keys[i];
      TakeSnoc(keys, i);
      var before, after := Lookup(left, key), Lookup(right, key);
      SidesEqualSame(before, after);
      PrefixOrdered(keys, i + 1);
      DiffStep(left, right, keys[..i], key, changes);
      if !SidesEqual(before, after) {
        changes := changes + [PropertyChange(key, before, after)];
      }
    }
    assert keys[..|keys|] == keys;
    AmongAll(left, right, keys, changes);
  }

  lemma AmongNone(left: Properties, right: Properties)
    ensures DiffAmong(left, right, [], [])
  {
  }

  lemma AmongAll(left: Properties, right: Properties, keys: seq<string>, changes: seq<PropertyChange>)
    requires DiffAmong(left, right, keys, changes) && forall p :: p in keys <==> p in left.Keys + right.Keys
    ensures IsDiff(left, right, changes)
  {
  }

  lemma PrefixOrdered(keys: seq<string>, n: nat)
    requires StrictlyOrdered(TextKey, keys) && n <= |keys|
    ensures StrictlyOrdered(TextKey, keys[..n])
  {
    hide KeyLess;
  }

  /** The differences of two property maps are one sequence. */
  lemma DiffUnique(left: Properties, right: Properties, a: seq<PropertyChange>, b: seq<PropertyChange>)
    requires IsDiff(left, right, a) && IsDiff(left, right, b)
    ensures a == b
  {
    forall c ensures c in a <==> c in b {
      if c in a { assert Lists(b, c.property); }
      if c in b { assert Lists(a, c.property); }
    }
    StrictlyOrderedUnique(PointerKey, a, b);
  }

  function SwapChange(c: PropertyChange): PropertyChange {
    PropertyChange(c.property, c.candidate, c.baseline)
  }

  function SwapChanges(changes: seq<PropertyChange>): (r: seq<PropertyChange>)
    ensures |r| == |changes| && forall i :: 0 <= i < |r| ==> r[i] == SwapChange(changes[i])
  {
    if changes == [] then [] else [SwapChange(changes[0])] + SwapChanges(changes[1..])
  }

  /** Swapping the sides of every change gives the differences in the other direction. */
  lemma DiffSwaps(left: Properties, right: Properties, changes: seq<PropertyChange>)
    requires IsDiff(left, right, changes)
    ensures IsDiff(right, left, SwapChanges(changes))
  {
    var swapped := SwapChanges(changes);
    forall i, j | 0 <= i < j < |swapped| ensures KeyLess(PointerKey(swapped[i]), PointerKey(swapped[j])) {
      assert KeyLess(PointerKey(changes[i]), PointerKey(changes[j]));
    }
    forall c | c in swapped ensures ChangeOf(right, left, c) {
      var i :| 0 <= i < |swapped| && swapped[i] == c;
      assert changes[i] in changes;
    }
    forall p | Lookup(right, p) != Lookup(left, p) ensures Lists(swapped, p) {
      assert Lists(changes, p);
      var i :| 0 <= i < |changes| && changes[i].property == p;
      assert swapped[i] in swapped;
    }
  }

  /** Writes the candidate side of each change over the properties. */
  function Applied(props: Properties, changes: seq<PropertyChange>): Properties {
    if changes == [] then props
    else
      var c := changes[|changes| - 1];
      var before := Applied(props, changes[..|changes| - 1]);
      if c.candidate.Present? then before[c.property := c.candidate] else before - {c.property}
  }

  lemma {:induction false} AppliedValue(props: Properties, changes: seq<PropertyChange>, p: string)
    requires StrictlyOrdered(PointerKey, changes)
    ensures Lookup(Applied(props, changes), p) == match FindChange(changes, p) case None => Lookup(props, p) case Some(c) => c.candidate
  {
    if changes != [] {
      var n := |changes| - 1;
      var c := changes[n];
      assert changes == changes[..n] + [c];
      LastChange(changes[..n], c, p);
      assert StrictlyOrdered(PointerKey, changes[..n]);
      hide StrictlyOrdered, FindChange;
      AppliedValue(props, changes[..n], p);
    }
  }

  lemma {:induction false} AppliedPresent(props: Properties, changes: seq<PropertyChange>)
    requires forall p :: p in props ==> props[p].Present?
    ensures forall p :: p in Applied(props, changes) ==> Applied(props, changes)[p].Present?
  {
    if changes != [] {
      AppliedPresent(props, changes[..|changes| - 1]);
    }
  }

  lemma {:induction false} LastChange(changes: seq<PropertyChange>, c: PropertyChange, p: string)
    requires StrictlyOrdered(PointerKey, changes + [c])
    ensures FindChange(changes + [c], p) == if c.property == p then Some(c) else FindChange(changes, p)
  {
    var all := changes + [c];
    if changes == [] {
      assert all == [c] && all[1..] == [];
    } else {
      assert all[1..] == changes[1..] + [c];
      assert KeyLess(PointerKey(all[0]), PointerKey(all[|changes|]));
      KeyLessTotal(PointerKey(all[0]), PointerKey(all[|changes|]));
      assert StrictlyOrdered(PointerKey, changes[1..] + [c]);
      LastChange(changes[1..], c, p);
    }
  }

  lemma {:induction false} FindListed(changes: seq<PropertyChange>, c: PropertyChange)
    requires StrictlyOrdered(PointerKey, changes) && c in changes
    ensures FindChange(changes, c.property) == Some(c)
  {
    StrictlyOrderedNoRepeats(PointerKey, changes);
    var d := FindChange(changes, c.property);
    assert d.Some? && PointerKey(d.value) == PointerKey(c);
  }

  /** Applying the listed changes to the baseline object gives exactly the candidate's properties. */
  lemma DiffApplies(left: Properties, right: Properties, changes: seq<PropertyChange>)
    requires IsDiff(left, right, changes)
    requires forall p :: p in left ==> left[p].Present?
    requires forall p :: p in right ==> right[p].Present?
    ensures Applied(left, changes) == right
  {
    var r := Applied(left, changes);
    AppliedPresent(left, changes);
    forall p ensures Lookup(r, p) == Lookup(right, p) && (p in r ==> r[p].Present?) {
      AppliedValue(left, changes, p);
      if Lookup(left, p) != Lookup(right, p) {
        assert Lists(changes, p);
        var c :| c in changes && c.property == p;
        FindListed(changes, c);
      }
    }
    assert forall p :: p in r <==> p in right;
  }

  // ----- object changes

  function ParentJson(parent: Option<Identity>): Json {
    match parent
    case None => Null
    case Some(p) => IdentityJson(p)
  }

  ghost predicate SameProperties(left: Properties, right: Properties) {
    forall p :: Lookup(left, p) == Lookup(right, p)
  }

  /** `i` names an object of one side only, or one whose properties differ. */
  ghost predicate Differs(a: Objects, b: Objects, i: Identity) {
    (i in a || i in b) && (i in a && i in b ==> !SameProperties(a[i].properties, b[i].properties))
  }

  /** `c` is the entry of identity `i` in the comparison of `a` with `b`. */
  ghost predicate Describes(a: Objects, b: Objects, i: Identity, c: ObjectChange) {
    && c.objectIdentity == IdentityJson(i)
    && if i in a && i in b then
         && c.change == "changed" && c.parentIdentity == ParentJson(a[i].parentIdentity)
         && c.propertyChanges != [] && IsDiff(a[i].properties, b[i].properties, c.propertyChanges)
       else if i in b then
         c.change == "added" && c.parentIdentity == ParentJson(b[i].parentIdentity) && c.propertyChanges == []
       else
         i in a && c.change == "removed" && c.parentIdentity == ParentJson(a[i].parentIdentity) && c.propertyChanges == []
  }

  /** Additions come first, then removals, then changes. */
  function RankText(change: string): string {
    if change == "added" then "0" else if change == "removed" then "1" else "2"
  }

  function ChangeKey(c: ObjectChange): SortKey {
    [RankText(c.change), Render(c.objectIdentity)]
  }

  ghost predicate ListsIdentity(changes: seq<ObjectChange>, i: Identity) {
    exists c :: c in changes && c.objectIdentity == IdentityJson(i)
  }

  /** `changes` lists exactly the identities that differ, each once, in canonical order. */
  ghost predicate IsListing(a: Objects, b: Objects, changes: seq<ObjectChange>) {
    && StrictlyOrdered(ChangeKey, changes)
    && (forall c :: c in changes ==> exists i :: Describes(a, b, i, c))
    && (forall i :: Differs(a, b, i) ==> ListsIdentity(changes, i))
  }

  ghost function ChangedIds(a: Objects, b: Objects): set<Identity> {
    set i | i in a && i in b && !SameProperties(a[i].properties, b[i].properties)
  }

  ghost function UnchangedIds(a: Objects, b: Objects): set<Identity> {
    set i | i in a && i in b && SameProperties(a[i].properties, b[i].properties)
  }

  function AddedWeight(c: ObjectChange): int { if c.change == "added" then 1 else 0 }
  function RemovedWeight(c: ObjectChange): int { if c.change == "removed" then 1 else 0 }
  function ChangedWeight(c: ObjectChange): int { if c.change == "changed" then 1 else 0 }
  function PropertyWeight(c: ObjectChange): int { |c.propertyChanges| }

  /** The counts of a summary are those of the two sides. */
  ghost predicate SummaryOf(a: Objects, b: Objects, s: Summary) {
    && s.added == |b.Keys - a.Keys| && s.removed == |a.Keys - b.Keys|
    && s.changed == |ChangedIds(a, b)| && s.unchangedObjects == |UnchangedIds(a, b)|
  }

  /** The counts of a summary are those of the list. */
  ghost predicate SummaryCounts(changes: seq<ObjectChange>, s: Summary) {
    && s.added == Total(AddedWeight, changes) && s.removed == Total(RemovedWeight, changes)
    && s.changed == Total(ChangedWeight, changes) && s.propertyChanges == Total(PropertyWeight, changes)
  }

  /** The entries of the identities `seen`, in any order. */
  ghost predicate Collected(a: Objects, b: Objects, seen: set<Identity>, changes: seq<ObjectChange>) {
    && (forall c :: c in changes ==> exists i :: i in seen && Describes(a, b, i, c))
    && (forall i :: i in seen && Differs(a, b, i) ==> ListsIdentity(changes, i))
    && (forall k, l :: 0 <= k < l < |changes| ==> changes[k].objectIdentity != changes[l].objectIdentity)
  }

  lemma CollectStep(a: Objects, b: Objects, seen: set<Identity>, changes: seq<ObjectChange>, i: Identity, c: ObjectChange)
    requires Collected(a, b, seen, changes) && i !in seen && Describes(a, b, i, c)
    ensures Collected(a, b, seen + {i}, changes + [c])
  {
    hide Describes, Differs, IdentityJson;
    assert c.objectIdentity == IdentityJson(i) by { DescribesNames(a, b, i, c); }
    var next := changes + [c];
    assert c in next;
    forall d | d in changes ensures d.objectIdentity != IdentityJson(i) {
      var j :| j in seen && Describes(a, b, j, d);
      DescribesNames(a, b, j, d);
      if d.objectIdentity == IdentityJson(i) { IdentityJsonInjective(i, j); }
    }
    forall d | d in next ensures exists j :: j in seen + {i} && Describes(a, b, j, d) {
      if d in changes {
        var j :| j in seen && Describes(a, b, j, d);
        assert j in seen + {i};
      } else {
        assert i in seen + {i};
      }
    }
    forall j | j in seen + {i} && Differs(a, b, j) ensures ListsIdentity(next, j) {
      if j != i {
        assert ListsIdentity(changes, j);
        var d :| d in changes && d.objectIdentity == IdentityJson(j);
        assert d in next;
      }
    }
  }

  lemma DescribesNames(a: Objects, b: Objects, i: Identity, c: ObjectChange)
    requires Describes(a, b, i, c)
    ensures c.objectIdentity == IdentityJson(i)
  {
  }

  lemma SkipStep(a: Objects, b: Objects, seen: set<Identity>, changes: seq<ObjectChange>, i: Identity)
    requires Collected(a, b, seen, changes) && !Differs(a, b, i)
    ensures Collected(a, b, seen + {i}, changes)
  {
  }

  /** A property diff is empty exactly when the properties agree. */
  lemma DiffEmpty(left: Properties, right: Properties, changes: seq<PropertyChange>)
    requires IsDiff(left, right, changes)
    ensures changes == [] <==> SameProperties(left, right)
  {
    if changes != [] {
      assert changes[0] in changes;
      assert Lookup(left, changes[0].property) != Lookup(right, changes[0].property);
    } else {
      forall p ensures Lookup(left, p) == Lookup(right, p) {
        assert !Lists(changes, p);
      }
    }
  }

  lemma CollectedTogether(a: Objects, b: Objects, s: set<Identity>, t: set<Identity>, u: seq<ObjectChange>, v: seq<ObjectChange>)
    requires Collected(a, b, s, u) && Collected(a, b, t, v) && s !! t
    ensures Collected(a, b, s + t, u + v)
  {
    hide Describes, Differs, IdentityJson;
    forall c, d | c in u && d in v ensures c.objectIdentity != d.objectIdentity {
      var i :| i in s && Describes(a, b, i, c);
      var j :| j in t && Describes(a, b, j, d);
      DescribesNames(a, b, i, c);
      DescribesNames(a, b, j, d);
      if c.objectIdentity == d.objectIdentity { IdentityJsonInjective(i, j); }
    }
    forall c | c in u + v ensures exists i :: i in s + t && Describes(a, b, i, c) {
      if c in u {
        var i :| i in s && Describes(a, b, i, c);
        assert i in s + t;
      } else {
        var i :| i in t && Describes(a, b, i, c);
        assert i in s + t;
      }
    }
    forall i | i in s + t && Differs(a, b, i) ensures ListsIdentity(u + v, i) {
      if i in s {
        assert ListsIdentity(u, i);
        var c :| c in u && c.objectIdentity == IdentityJson(i);
        assert c in u + v;
      } else {
        assert ListsIdentity(v, i);
        var c :| c in v && c.objectIdentity == IdentityJson(i);
        assert c in u + v;
      }
    }
  }

  function Members(ids: seq<Identity>): set<Identity> {
    set i | i in ids
  }

  /** The loop over the identities of one side only. */
  method ListOneSided(ids: seq<Identity>, a: Objects, b: Objects, change: string) returns (list: seq<ObjectChange>)
    requires change == "added" || change == "removed"
    requires forall i :: i in ids ==> if change == "added" then i in b && i !in a else i in a && i !in b
    requires NoRepeats(ids)
    ensures Collected(a, b, Members(ids), list) && |list| == |ids|
    ensures forall c :: c in list ==> c.change == change && c.propertyChanges == []
  {
    hide Collected, IdentityJson, ParentJson;
    list := [];
    ghost var seen: set<Identity> := {};
    assert Collected(a, b, {}, []) by { CollectedNone(a, b); }
    for k := 0 to |ids|
      invariant forall i :: i in seen <==> i in ids[..k]
      invariant Collected(a, b, seen, list) && |list| == k
      invariant forall c :: c in list ==> c.change == change && c.propertyChanges == []
    {
      TakeSnoc(ids, k);
      var obj := if change == "added" then b[ids[k]] else a[ids[k]];
      var c := ObjectChange(change, IdentityJson(ids[k]), ParentJson(obj.parentIdentity), []);
      CollectStep(a, b, seen, list, ids[k], c);
      list := list + [c];
      seen := seen + {ids[k]};
    }
    assert ids[..|ids|] == ids;
    assert seen == Members(ids);
  }

  lemma CollectedNone(a: Objects, b: Objects)
    ensures Collected(a, b, {}, [])
  {
  }

  lemma MatchedSides(a: Objects, b: Objects, i: Identity, changes: seq<PropertyChange>)
    requires i in a && i in b && IsDiff(a[i].properties, b[i].properties, changes)
    ensures changes == [] ==> !Differs(a, b, i) && i in UnchangedIds(a, b) && i !in ChangedIds(a, b)
    ensures changes != [] ==> i in ChangedIds(a, b) && i !in UnchangedIds(a, b)
    ensures changes != [] ==>
      Describes(a, b, i, ObjectChange("changed", IdentityJson(i), ParentJson(a[i].parentIdentity), changes))
  {
    hide IsDiff, SameProperties, IdentityJson;
    DiffEmpty(a[i].properties, b[i].properties, changes);
  }

  /** The state of the loop over matched identities once `seen` have been compared. */
  ghost predicate Compared(a: Objects, b: Objects, seen: set<Identity>, list: seq<ObjectChange>,
    changedCount: int, unchangedCount: int, propertyCount: int)
  {
    && Collected(a, b, seen, list) && (forall c :: c in list ==> c.change == "changed")
    && |list| == changedCount == |ChangedIds(a, b) * seen| && unchangedCount == |UnchangedIds(a, b) * seen|
    && propertyCount == Total(PropertyWeight, list)
  }

  function ChangedEntry(a: Objects, i: Identity, changes: seq<PropertyChange>): ObjectChange
    requires i in a
  {
    ObjectChange("changed", IdentityJson(i), ParentJson(a[i].parentIdentity), changes)
  }

  lemma ComparedNone(a: Objects, b: Objects)
    ensures Compared(a, b, {}, [], 0, 0, 0)
  {
  }

  lemma ComparedStep(a: Objects, b: Objects, seen: set<Identity>, list: seq<ObjectChange>,
    changedCount: int, unchangedCount: int, propertyCount: int, i: Identity, changes: seq<PropertyChange>)
    requires Compared(a, b, seen, list, changedCount, unchangedCount, propertyCount)
    requires i !in seen && i in a && i in b && IsDiff(a[i].properties, b[i].properties, changes)
    ensures changes == [] ==> Compared(a, b, seen + {i}, list, changedCount, unchangedCount + 1, propertyCount)
    ensures changes != [] ==>
      Compared(a, b, seen + {i}, list + [ChangedEntry(a, i, changes)], changedCount + 1, unchangedCount, propertyCount + |changes|)
  {
    hide Collected, IdentityJson, ParentJson, IsDiff, Describes, Differs, ChangedIds, UnchangedIds, Total;
    MatchedSides(a, b, i, changes);
    var c := ChangedEntry(a, i, changes);
    if changes == [] {
      SkipStep(a, b, seen, list, i);
      CountMember(UnchangedIds(a, b), seen, i);
      CountOther(ChangedIds(a, b), seen, i);
    } else {
      CollectStep(a, b, seen, list, i, c);
      TotalSnoc(PropertyWeight, list, c);
      CountMember(ChangedIds(a, b), seen, i);
      CountOther(UnchangedIds(a, b), seen, i);
    }
  }

  lemma CountMember(ids: set<Identity>, seen: set<Identity>, i: Identity)
    requires i in ids && i !in seen
    ensures |ids * (seen + {i})| == |ids * seen| + 1
  {
    assert ids * (seen + {i}) == ids * seen + {i};
  }

  lemma CountOther(ids: set<Identity>, seen: set<Identity>, i: Identity)
    requires i !in ids
    ensures |ids * (seen + {i})| == |ids * seen|
  {
    assert ids * (seen + {i}) == ids * seen;
  }

  /** The loop over the identities of both sides. */
  method ListChanged(ids: seq<Identity>, a: Objects, b: Objects)
    returns (list: seq<ObjectChange>, changedCount: int, unchangedCount: int, propertyCount: int)
    requires NoRepeats(ids) && forall i :: i in ids <==> i in a && i in b
    ensures Collected(a, b, Members(ids), list) && |list| == changedCount
    ensures forall c :: c in list ==> c.change == "changed"
    ensures changedCount == |ChangedIds(a, b)| && unchangedCount == |UnchangedIds(a, b)|
    ensures propertyCount == Total(PropertyWeight, list)
  {
    hide Compared, Collected, IdentityJson, ParentJson, IsDiff, ChangedIds, UnchangedIds;
    list, changedCount, unchangedCount, propertyCount := [], 0, 0, 0;
    ghost var seen: set<Identity> := {};
    ComparedNone(a, b);
    for k := 0 to |ids|
      invariant forall i :: i in seen <==> i in ids[..k]
      invariant Compared(a, b, seen, list, changedCount, unchangedCount, propertyCount)
    {
      var i := ids[k];
      TakeSnoc(ids, k);
      var changes := DiffProperties(a[i].properties, b[i].properties);
      ComparedStep(a, b, seen, list, changedCount, unchangedCount, propertyCount, i, changes);
      seen := seen + {i};
      if |changes| == 0 {
        unchangedCount := unchangedCount + 1;
      } else {
        changedCount := changedCount + 1;
        propertyCount := propertyCount + |changes|;
        list := list + [ObjectChange("changed", IdentityJson(i), ParentJson(a[i].parentIdentity), changes)];
      }
    }
    assert ids[..|ids|] == ids;
    ComparedAll(a, b, ids, list, changedCount, unchangedCount, propertyCount, seen);
  }

  lemma ComparedAll(a: Objects, b: Objects, ids: seq<Identity>, list: seq<ObjectChange>,
    changedCount: int, unchangedCount: int, propertyCount: int, seen: set<Identity>)
    requires Compared(a, b, seen, list, changedCount, unchangedCount, propertyCount)
    requires (forall i :: i in seen <==> i in ids) && forall i :: i in ids <==> i in a && i in b
    ensures Collected(a, b, Members(ids), list) && |list| == changedCount
    ensures forall c :: c in list ==> c.change == "changed"
    ensures changedCount == |ChangedIds(a, b)| && unchangedCount == |UnchangedIds(a, b)|
    ensures propertyCount == Total(PropertyWeight, list)
  {
    hide Collected, SameProperties;
    assert seen == Members(ids);
    assert ChangedIds(a, b) * seen == ChangedIds(a, b) && UnchangedIds(a, b) * seen == UnchangedIds(a, b);
  }

  /** A matched object is either changed or unchanged. */
  lemma MatchedSplit(a: Objects, b: Objects)
    ensures ChangedIds(a, b) + UnchangedIds(a, b) == a.Keys * b.Keys && ChangedIds(a, b) !! UnchangedIds(a, b)
    ensures |ChangedIds(a, b)| + |UnchangedIds(a, b)| == |a.Keys * b.Keys|
  {
  }

  lemma {:induction false} UniformTotals(list: seq<ObjectChange>, change: string)
    requires change in {"added", "removed", "changed"} && forall c :: c in list ==> c.change == change
    ensures Total(AddedWeight, list) == (if change == "added" then |list| else 0)
    ensures Total(RemovedWeight, list) == (if change == "removed" then |list| else 0)
    ensures Total(ChangedWeight, list) == (if change == "changed" then |list| else 0)
    ensures (forall c :: c in list ==> c.propertyChanges == []) ==> Total(PropertyWeight, list) == 0
  {
    if list != [] {
      UniformTotals(list[..|list| - 1], change);
    }
  }

  /** Counts add up over parts. */
  lemma CountsOfParts(u: seq<ObjectChange>, v: seq<ObjectChange>, w: seq<ObjectChange>, s: Summary)
    requires forall c :: c in u ==> c.change == "added" && c.propertyChanges == []
    requires forall c :: c in v ==> c.change == "removed" && c.propertyChanges == []
    requires forall c :: c in w ==> c.change == "changed"
    requires s.added == |u| && s.removed == |v| && s.changed == |w| && s.propertyChanges == Total(PropertyWeight, w)
    ensures SummaryCounts(SortBy(ChangeKey, u + v + w), s)
  {
    UniformTotals(u, "added");
    UniformTotals(v, "removed");
    UniformTotals(w, "changed");
    PartTotals(AddedWeight, u, v, w);
    PartTotals(RemovedWeight, u, v, w);
    PartTotals(ChangedWeight, u, v, w);
    PartTotals(PropertyWeight, u, v, w);
  }

  lemma PartTotals(weight: ObjectChange -> int, u: seq<ObjectChange>, v: seq<ObjectChange>, w: seq<ObjectChange>)
    ensures Total(weight, SortBy(ChangeKey, u + v + w)) == Total(weight, u) + Total(weight, v) + Total(weight, w)
  {
    TotalSplit(weight, u + v, w);
    TotalSplit(weight, u, v);
    SortByTotal(weight, ChangeKey, u + v + w);
  }

  /** Sorting the collected entries gives the listing. */
  lemma SortedListing(a: Objects, b: Objects, seen: set<Identity>, list: seq<ObjectChange>)
    requires Collected(a, b, seen, list) && forall i :: Differs(a, b, i) ==> i in seen
    ensures IsListing(a, b, SortBy(ChangeKey, list))
  {
    hide Describes, Differs;
    forall c, d | c in list && d in list && ChangeKey(c) == ChangeKey(d) ensures c == d {
      assert ChangeKey(c)[1] == ChangeKey(d)[1];
      RenderInjective(c.objectIdentity, d.objectIdentity);
    }
    SortByStrict(ChangeKey, list);
    SortByOrdered(ChangeKey, list);
    var sorted := SortBy(ChangeKey, list);
    forall c | c in sorted ensures exists i :: Describes(a, b, i, c) {
      assert c in list;
    }
    forall i | Differs(a, b, i) ensures ListsIdentity(sorted, i) {
      assert ListsIdentity(list, i);
      var c :| c in list && c.objectIdentity == IdentityJson(i);
      assert c in sorted;
    }
  }

  /** The comparison: three loops, then one stable sort. */
  method CompareProjected(a: Objects, b: Objects) returns (changes: seq<ObjectChange>, summary: Summary)
    ensures IsListing(a, b, changes) && SummaryOf(a, b, summary) && SummaryCounts(changes, summary)
  {
    hide Collected, IsListing, ChangedIds, UnchangedIds, SummaryCounts, Describes, SameProperties, IdentityKey;
    IdentityKeyInjective();
    var addedIds := SortSet(IdentityKey, b.Keys - a.Keys);
    var removedIds := SortSet(IdentityKey, a.Keys - b.Keys);
    var matchedIds := SortSet(IdentityKey, a.Keys * b.Keys);
    StrictlyOrderedNoRepeats(IdentityKey, addedIds);
    StrictlyOrderedNoRepeats(IdentityKey, removedIds);
    StrictlyOrderedNoRepeats(IdentityKey, matchedIds);
    var added := ListOneSided(addedIds, a, b, "added");
    var removed := ListOneSided(removedIds, a, b, "removed");
    var changed, changedCount, unchangedCount, propertyCount := ListChanged(matchedIds, a, b);
    CollectedTogether(a, b, Members(addedIds), Members(removedIds), added, removed);
    CollectedTogether(a, b, Members(addedIds) + Members(removedIds), Members(matchedIds), added + removed, changed);
    SortedListing(a, b, Members(addedIds) + Members(removedIds) + Members(matchedIds), added + removed + changed);
    changes := SortBy(ChangeKey, added + removed + changed);
    summary := Summary(|addedIds|, |removedIds|, changedCount, unchangedCount, propertyCount);
    CountsOfParts(added, removed, changed, summary);
  }

  // ----- conservation

  /** Every object is accounted for once on each side. */
  lemma Conservation(a: Objects, b: Objects, s: Summary)
    requires SummaryOf(a, b, s)
    ensures s.unchangedObjects + s.changed + s.removed == |a|
    ensures s.unchangedObjects + s.changed + s.added == |b|
  {
    MatchedSplit(a, b);
    assert a.Keys == a.Keys * b.Keys + (a.Keys - b.Keys);
    assert b.Keys == a.Keys * b.Keys + (b.Keys - a.Keys);
    assert |a.Keys| == |a.Keys * b.Keys| + |a.Keys - b.Keys|;
    assert |b.Keys| == |a.Keys * b.Keys| + |b.Keys - a.Keys|;
  }

  /** Whether an object is listed tells whether it differs, and the listed changes rebuild the candidate's object. */
  lemma ListedChangesApply(a: Objects, b: Objects, changes: seq<ObjectChange>, i: Identity)
    requires IsListing(a, b, changes) && i in a && i in b
    requires forall p :: p in a[i].properties ==> a[i].properties[p].Present?
    requires forall p :: p in b[i].properties ==> b[i].properties[p].Present?
    ensures !ListsIdentity(changes, i) <==> a[i].properties == b[i].properties
    ensures forall c :: c in changes && c.objectIdentity == IdentityJson(i) ==>
      c.change == "changed" && Applied(a[i].properties, c.propertyChanges) == b[i].properties
  {
    hide IdentityJson;
    var left, right := a[i].properties, b[i].properties;
    SameMaps(left, right);
    forall c | c in changes && c.objectIdentity == IdentityJson(i)
      ensures c.change == "changed" && Applied(left, c.propertyChanges) == right && Differs(a, b, i)
    {
      var j :| Describes(a, b, j, c);
      IdentityJsonInjective(i, j);
      DiffApplies(left, right, c.propertyChanges);
      DiffEmpty(left, right, c.propertyChanges);
    }
  }

  lemma SameMaps(left: Properties, right: Properties)
    requires forall p :: p in left ==> left[p].Present?
    requires forall p :: p in right ==> right[p].Present?
    ensures SameProperties(left, right) <==> left == right
  {
    if SameProperties(left, right) {
      forall p ensures p in left <==> p in right {
        assert Lookup(left, p) == Lookup(right, p);
      }
      forall p | p in left ensures left[p] == right[p] {
        assert Lookup(left, p) == Lookup(right, p);
      }
    }
  }
}
