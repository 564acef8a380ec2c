/**
 Stable sorting by key, and the grouping loop. A key is a tuple of texts, compared
 component by component.
 */
module Sorting {
  import opened Texts

  type SortKey = seq<string>

  predicate KeyLess(a: SortKey, b: SortKey) {
    if b == [] then false
    else if a == [] then true
    else if a[0] != b[0] then Less(a[0], b[0])
    else KeyLess(a[1..], b[1..])
  }

  lemma {:induction false} KeyLessTotal(a: SortKey, b: SortKey)
    ensures a == b || KeyLess(a, b) || KeyLess(b, a)
    ensures KeyLess(a, b) ==> a != b && !KeyLess(b, a)
  {
    if a != [] && b != [] {
      LessTotal(a[0], b[0]);
      if a[0] == b[0] {
        KeyLessTotal(a[1..], b[1..]);
        assert a == [a[0]] + a[1..] && b == [b[0]] + b[1..];
      }
    }
  }

  lemma {:induction false} KeyLessTransitive(a: SortKey, b: SortKey, c: SortKey)
    requires KeyLess(a, b) && KeyLess(b, c)
    ensures KeyLess(a, c)
  {
    if a != [] {
      if a[0] == b[0] && b[0] == c[0] {
        KeyLessTransitive(a[1..], b[1..], c[1..]);
      } else if a[0] != b[0] && b[0] != c[0] {
        LessTransitive(a[0], b[0], c[0]);
        LessTotal(a[0], c[0]);
      }
    }
  }

  /** Neither `b` below `a` nor `c` below `b`: then not `c` below `a`. */
  lemma KeyLessWeak(a: SortKey, b: SortKey, c: SortKey)
    requires !KeyLess(b, a) && !KeyLess(c, b)
    ensures !KeyLess(c, a)
  {
    KeyLessTotal(a, b);
    KeyLessTotal(b, c);
    KeyLessTotal(a, c);
    if KeyLess(a, b) && KeyLess(b, c) {
      KeyLessTransitive(a, b, c);
    }
  }

  /** Texts sorted as such. */
  function TextKey(s: string): SortKey { [s] }

  lemma TextKeyInjective()
    ensures forall a, b :: TextKey(a) == TextKey(b) ==> a == b
  {
    forall a, b | TextKey(a) == TextKey(b) ensures a == b {
      assert TextKey(a)[0] == TextKey(b)[0];
    }
  }

  ghost predicate Ordered<T(!new)>(key: T -> SortKey, s: seq<T>) {
    forall i, j :: 0 <= i < j < |s| ==> !KeyLess(key(s[j]), key(s[i]))
  }

  ghost predicate StrictlyOrdered<T(!new)>(key: T -> SortKey, s: seq<T>) {
    forall i, j :: 0 <= i < j < |s| ==> KeyLess(key(s[i]), key(s[j]))
  }

  /** `x` goes before the first element that is not below it, so equal keys keep their order. */
  function Insert<T(==,!new)>(key: T -> SortKey, x: T, s: seq<T>): (r: seq<T>)
    ensures multiset(r) == multiset{x} + multiset(s)
    ensures |r| == |s| + 1
  {
    if s == [] then [x]
    else if KeyLess(key(s[0]), key(x)) then
      assert s == [s[0]] + s[1..];
      [s[0]] + Insert(key, x, s[1..])
    else [x] + s
  }

  lemma {:induction false} InsertOrdered<T(!new)>(key: T -> SortKey, x: T, s: seq<T>)
    requires Ordered(key, s)
    ensures Ordered(key, Insert(key, x, s))
  {
    var r := Insert(key, x, s);
    if s != [] {
      if KeyLess(key(s[0]), key(x)) {
        InsertOrdered(key, x, s[1..]);
        var t := Insert(key, x, s[1..]);
        forall j | 0 <= j < |t| ensures !KeyLess(key(t[j]), key(s[0])) {
          assert t[j] in multiset(t);
          assert t[j] == x || t[j] in multiset(s[1..]);
          KeyLessTotal(key(s[0]), key(x));
        }
      } else {
        forall j | 0 <= j < |s| ensures !KeyLess(key(s[j]), key(x)) {
          if j > 0 { KeyLessWeak(key(x), key(s[0]), key(s[j])); }
        }
      }
    }
  }

  /** Stable sort by key, as the built-in `sorted` of the source. */
  function SortBy<T(==,!new)>(key: T -> SortKey, xs: seq<T>): (r: seq<T>)
    ensures multiset(r) == multiset(xs)
    ensures |r| == |xs|
  {
    if xs == [] then []
    else
      assert xs == [xs[0]] + xs[1..];
      Insert(key, xs[0], SortBy(key, xs[1..]))
  }

  lemma {:induction false} SortByOrdered<T(!new)>(key: T -> SortKey, xs: seq<T>)
    ensures Ordered(key, SortBy(key, xs))
    ensures forall x :: x in SortBy(key, xs) <==> x in xs
  {
    if xs != [] {
      SortByOrdered(key, xs[1..]);
      InsertOrdered(key, xs[0], SortBy(key, xs[1..]));
    }
    forall x ensures x in SortBy(key, xs) <==> x in xs {
      assert x in SortBy(key, xs) <==> x in multiset(SortBy(key, xs));
      assert x in xs <==> x in multiset(xs);
    }
  }

  ghost predicate NoRepeats<T(!new)>(s: seq<T>) {
    forall i, j :: 0 <= i < j < |s| ==> s[i] != s[j]
  }

  lemma {:induction false} NoRepeatsCount<T(!new)>(s: seq<T>, x: T)
    requires NoRepeats(s)
    ensures multiset(s)[x] <= 1
  {
    if s != [] {
      var n := |s| - 1;
      assert s == s[..n] + [s[n]];
      NoRepeatsCount(s[..n], x);
      if s[n] == x {
        assert x !in s[..n];
        assert multiset(s[..n])[x] == 0;
      }
    }
  }

  /** Rearranging a sequence without repeats gives one without repeats. */
  lemma NoRepeatsPermuted<T(!new)>(a: seq<T>, b: seq<T>)
    requires multiset(a) == multiset(b) && NoRepeats(a)
    ensures NoRepeats(b)
  {
    forall i, j | 0 <= i < j < |b| ensures b[i] != b[j] {
      assert b == b[..j] + b[j..] && b[i] in b[..j] && b[j] in b[j..];
      NoRepeatsCount(a, b[i]);
    }
  }

  lemma {:induction false} InsertMembers<T(!new)>(key: T -> SortKey, x: T, s: seq<T>, y: T)
    ensures y in Insert(key, x, s) <==> y == x || y in s
  {
    assert y in Insert(key, x, s) <==> y in multiset(Insert(key, x, s));
    assert y in s <==> y in multiset(s);
  }

  lemma {:induction false} InsertStrict<T(!new)>(key: T -> SortKey, x: T, s: seq<T>)
    requires StrictlyOrdered(key, s)
    requires forall y :: y in s ==> key(y) != key(x)
    ensures StrictlyOrdered(key, Insert(key, x, s))
  {
    if s != [] {
      var r := Insert(key, x, s);
      KeyLessTotal(key(s[0]), key(x));
      if KeyLess(key(s[0]), key(x)) {
        InsertStrict(key, x, s[1..]);
        forall j | 1 <= j < |r| ensures KeyLess(key(s[0]), key(r[j])) {
          InsertMembers(key, x, s[1..], r[j]);
        }
      } else {
        forall j | 1 <= j < |s| ensures KeyLess(key(x), key(s[j])) {
          KeyLessTransitive(key(x), key(s[0]), key(s[j]));
        }
      }
    }
  }

  lemma HeadKeyFresh<T(!new)>(key: T -> SortKey, xs: seq<T>, y: T)
    requires NoRepeats(xs) && xs != [] && y in xs[1..]
    requires forall x, y :: x in xs && y in xs && key(x) == key(y) ==> x == y
    ensures key(y) != key(xs[0])
  {
    var i :| 0 <= i < |xs[1..]| && xs[1..][i] == y;
    assert y == xs[i + 1] && xs[0] in xs;
  }

  /** Sorting a sequence whose different elements have different keys gives a strictly ordered one. */
  lemma {:induction false} SortByStrict<T(!new)>(key: T -> SortKey, xs: seq<T>)
    requires NoRepeats(xs)
    requires forall x, y :: x in xs && y in xs && key(x) == key(y) ==> x == y
    ensures StrictlyOrdered(key, SortBy(key, xs))
  {
    if xs != [] {
      var rest := xs[1..];
      SortByStrict(key, rest);
      SortByOrdered(key, rest);
      forall y | y in SortBy(key, rest) ensures key(y) != key(xs[0]) {
        HeadKeyFresh(key, xs, y);
      }
      InsertStrict(key, xs[0], SortBy(key, rest));
    }
  }

  /** A strictly ordered sequence is determined by its elements. */
  lemma {:induction false} StrictlyOrderedUnique<T(!new)>(key: T -> SortKey, a: seq<T>, b: seq<T>)
    requires StrictlyOrdered(key, a) && StrictlyOrdered(key, b)
    requires forall x :: x in a <==> x in b
    ensures a == b
  {
    assert b != [] ==> b[0] in b;
    if a != [] {
      assert a[0] in b;
      var j :| 0 <= j < |b| && b[j] == a[0];
      assert b[0] in a;
      var i :| 0 <= i < |a| && a[i] == b[0];
      KeyLessTotal(key(a[0]), key(b[0]));
      assert a[0] == b[0];
      forall x ensures x in a[1..] <==> x in b[1..] {
        KeyLessTotal(key(a[0]), key(a[0]));
        assert a == [a[0]] + a[1..] && b == [b[0]] + b[1..];
        assert x in a <==> x == a[0] || x in a[1..];
        assert x in b <==> x == a[0] || x in b[1..];
      }
      StrictlyOrderedUnique(key, a[1..], b[1..]);
      assert a == [a[0]] + a[1..] && b == [b[0]] + b[1..];
    }
  }

  /** Equal keys keep the order in which they are inserted. */
  lemma {:induction false} InsertTwice<T(!new)>(key: T -> SortKey, x: T, y: T, s: seq<T>)
    requires x != y && key(x) == key(y)
    ensures Insert(key, x, Insert(key, y, s)) != Insert(key, y, Insert(key, x, s))
  {
    KeyLessTotal(key(x), key(y));
    if s == [] || !KeyLess(key(s[0]), key(x)) {
      assert Insert(key, x, [y] + s)[0] == x && Insert(key, y, [x] + s)[0] == y;
    } else {
      InsertTwice(key, x, y, s[1..]);
      var u, v := Insert(key, y, s[1..]), Insert(key, x, s[1..]);
      assert ([s[0]] + u)[1..] == u && ([s[0]] + v)[1..] == v;
      Cons(s[0], Insert(key, x, u), Insert(key, y, v));
    }
  }

  lemma TieStays<T(!new)>(key: T -> SortKey, x: T, y: T)
    requires key(x) == key(y)
    ensures SortBy(key, [x, y]) == [x, y]
  {
    KeyLessTotal(key(x), key(y));
    assert [x, y][1..] == [y] && [y][1..] == [];
  }

  lemma Cons<T>(x: T, s: seq<T>, t: seq<T>)
    ensures [x] + s == [x] + t ==> s == t
  {
    assert ([x] + s)[1..] == s && ([x] + t)[1..] == t;
  }

  lemma Remove<T>(xs: seq<T>, x: T) returns (rest: seq<T>)
    requires x in xs
    ensures multiset(xs) == multiset([x] + rest)
  {
    var i :| 0 <= i < |xs| && xs[i] == x;
    rest := xs[..i] + xs[i + 1..];
    assert xs == xs[..i] + [x] + xs[i + 1..];
  }

  /** A tie shows: the two elements sort differently when they come in the other order. */
  lemma TieShows<T(!new)>(key: T -> SortKey, xs: seq<T>, x: T, y: T) returns (us: seq<T>, vs: seq<T>)
    requires x in xs && y in xs && x != y && key(x) == key(y)
    ensures multiset(us) == multiset(xs) == multiset(vs) && SortBy(key, us) != SortBy(key, vs)
  {
    var rest := Remove(xs, x);
    assert multiset([x] + rest) == multiset{x} + multiset(rest);
    assert y in multiset(xs);
    rest := Remove(rest, y);
    us, vs := [x] + ([y] + rest), [y] + ([x] + rest);
    assert us[1..] == [y] + rest && vs[1..] == [x] + rest;
    assert ([y] + rest)[1..] == rest && ([x] + rest)[1..] == rest;
    InsertTwice(key, x, y, SortBy(key, rest));
  }

  /** However the elements come in, they sort to the same sequence. */
  ghost predicate ForgetsOrder<T(!new)>(key: T -> SortKey, xs: seq<T>) {
    forall ys :: multiset(ys) == multiset(xs) ==> SortBy(key, ys) == SortBy(key, xs)
  }

  ghost predicate KeysDiffer<T(!new)>(key: T -> SortKey, xs: seq<T>) {
    forall x, y :: x in xs && y in xs && key(x) == key(y) ==> x == y
  }

  /** `sorted` forgets the order of different elements exactly if they have different keys. */
  lemma ForgetsOrderExactly<T(!new)>(key: T -> SortKey, xs: seq<T>)
    requires NoRepeats(xs)
    ensures ForgetsOrder(key, xs) <==> KeysDiffer(key, xs)
  {
    if KeysDiffer(key, xs) {
      forall ys | multiset(ys) == multiset(xs) ensures SortBy(key, ys) == SortBy(key, xs) {
        assert forall x :: x in ys <==> x in multiset(ys);
        assert forall x :: x in xs <==> x in multiset(xs);
        NoRepeatsPermuted(xs, ys);
        SortByStrict(key, xs);
        SortByStrict(key, ys);
        SortByOrdered(key, xs);
        SortByOrdered(key, ys);
        StrictlyOrderedUnique(key, SortBy(key, ys), SortBy(key, xs));
      }
    } else {
      var x, y :| x in xs && y in xs && key(x) == key(y) && x != y;
      var us, vs := TieShows(key, xs, x, y);
    }
  }

  lemma StrictlyOrderedNoRepeats<T(!new)>(key: T -> SortKey, s: seq<T>)
    requires StrictlyOrdered(key, s)
    ensures NoRepeats(s)
    ensures forall x, y :: x in s && y in s && key(x) == key(y) ==> x == y
  {
    forall i, j | 0 <= i < j < |s| ensures s[i] != s[j] {
      KeyLessTotal(key(s[i]), key(s[j]));
    }
    forall x, y | x in s && y in s && key(x) == key(y) ensures x == y {
      var i :| 0 <= i < |s| && s[i] == x;
      var j :| 0 <= j < |s| && s[j] == y;
      KeyLessTotal(key(x), key(y));
    }
  }

  /** The elements of `xs` with key `k`, in order. */
  function Select<T(!new), K(==)>(key: T -> K, k: K, xs: seq<T>): (r: seq<T>)
    ensures forall x :: x in r <==> x in xs && key(x) == k
  {
    if xs == [] then []
    else
      var n := |xs| - 1;
      assert xs == xs[..n] + [xs[n]];
      Select(key, k, xs[..n]) + if key(xs[n]) == k then [xs[n]] else []
  }

  lemma SelectSnoc<T(!new), K>(key: T -> K, k: K, xs: seq<T>, i: nat)
    requires i < |xs|
    ensures Select(key, k, xs[..i + 1]) == Select(key, k, xs[..i]) + if key(xs[i]) == k then [xs[i]] else []
  {
    assert xs[..i + 1][..i] == xs[..i];
  }

  lemma {:induction false} SelectNothing<T(!new), K>(key: T -> K, k: K, xs: seq<T>)
    requires forall x :: x in xs ==> key(x) != k
    ensures Select(key, k, xs) == []
  {
    if xs != [] { SelectNothing(key, k, xs[..|xs| - 1]); }
  }

  /** A loop over a sequence has seen one element more after each step. */
  lemma TakeSnoc<T>(s: seq<T>, i: nat)
    requires i < |s|
    ensures s[..i + 1] == s[..i] + [s[i]]
  {
  }

  /** At the end of the loop it has seen all of them. */
  lemma TakeAll<T>(s: seq<T>)
    ensures s[..|s|] == s
  {
  }

  /** What the grouping loop leaves: each key that occurs, with its elements in order of arrival. */
  ghost predicate Grouped<T(!new), K>(key: T -> K, xs: seq<T>, groups: map<K, seq<T>>) {
    && (forall x :: x in xs ==> key(x) in groups)
    && (forall k :: k in groups ==> groups[k] == Select(key, k, xs) && groups[k] != [])
  }

  lemma GroupStep<T(!new), K>(key: T -> K, xs: seq<T>, i: nat, before: map<K, seq<T>>)
    requires i < |xs| && Grouped(key, xs[..i], before)
    ensures var k := key(xs[i]);
      Grouped(key, xs[..i + 1], before[k := (if k in before then before[k] else []) + [xs[i]]])
  {
    var k := key(xs[i]);
    var after := before[k := (if k in before then before[k] else []) + [xs[i]]];
    assert xs[..i + 1] == xs[..i] + [xs[i]];
    if k !in before {
      SelectNothing(key, k, xs[..i]);
    }
    forall k' | k' in after ensures after[k'] == Select(key, k', xs[..i + 1]) && after[k'] != [] {
      SelectSnoc(key, k', xs, i);
    }
  }

  /** The grouping loop: a dictionary filled element by element. */
  method GroupBy<T(!new), K(==)>(key: T -> K, xs: seq<T>) returns (groups: map<K, seq<T>>)
    ensures Grouped(key, xs, groups)
  {
    groups := map[];
    for i := 0 to |xs|
      invariant Grouped(key, xs[..i], groups)
    {
      var k := key(xs[i]);
      GroupStep(key, xs, i, groups);
      groups := groups[k := (if k in groups then groups[k] else []) + [xs[i]]];
    }
    assert xs[..|xs|] == xs;
  }

  /** The distinct elements of `xs`, sorted by key: a dictionary filled in a loop, then sorted. */
  method SortDistinct<T(==,!new)>(key: T -> SortKey, xs: seq<T>) returns (r: seq<T>)
    requires forall x, y :: x in xs && y in xs && key(x) == key(y) ==> x == y
    ensures StrictlyOrdered(key, r)
    ensures forall x :: x in r <==> x in xs
  {
    var unique: seq<T> := [];
    for i := 0 to |xs|
      invariant NoRepeats(unique)
      invariant forall x :: x in unique <==> x in xs[..i]
    {
      if xs[i] !in unique {
        unique := unique + [xs[i]];
      }
    }
    assert xs[..|xs|] == xs;
    SortByStrict(key, unique);
    SortByOrdered(key, unique);
    r := SortBy(key, unique);
  }

  /** `sorted` applied to a set: whatever order the set is walked in, the result is the same. */
  method SortSet<T(==,!new)>(key: T -> SortKey, s: set<T>) returns (r: seq<T>)
    requires forall x, y :: x in s && y in s && key(x) == key(y) ==> x == y
    ensures StrictlyOrdered(key, r)
    ensures forall x :: x in r <==> x in s
    ensures |r| == |s|
  {
    var rest, listed := s, [];
    while rest != {}
      invariant rest <= s
      invariant NoRepeats(listed)
      invariant forall x :: x in listed <==> x in s && x !in rest
      invariant |listed| + |rest| == |s|
    {
      var x :| x in rest;
      listed, rest := listed + [x], rest - {x};
    }
    SortByStrict(key, listed);
    SortByOrdered(key, listed);
    r := SortBy(key, listed);
  }

  // ----- sums over a sequence

  function Total<T>(weight: T -> int, s: seq<T>): int {
    if s == [] then 0 else Total(weight, s[..|s| - 1]) + weight(s[|s| - 1])
  }

  lemma TotalSnoc<T>(weight: T -> int, s: seq<T>, x: T)
    ensures Total(weight, s + [x]) == Total(weight, s) + weight(x)
  {
    assert (s + [x])[..|s|] == s;
  }

  lemma {:induction false} TotalSplit<T>(weight: T -> int, a: seq<T>, b: seq<T>)
    ensures Total(weight, a + b) == Total(weight, a) + Total(weight, b)
  {
    if b == [] {
      assert a + b == a;
    } else {
      var n := |b| - 1;
      assert a + b == (a + b[..n]) + [b[n]];
      TotalSnoc(weight, a + b[..n], b[n]);
      TotalSplit(weight, a, b[..n]);
    }
  }

  lemma TotalCons<T>(weight: T -> int, x: T, s: seq<T>)
    ensures Total(weight, [x] + s) == weight(x) + Total(weight, s)
  {
    TotalSplit(weight, [x], s);
    TotalSnoc(weight, [], x);
    assert [] + [x] == [x];
  }

  lemma {:induction false} InsertTotal<T(!new)>(weight: T -> int, key: T -> SortKey, x: T, s: seq<T>)
    ensures Total(weight, Insert(key, x, s)) == weight(x) + Total(weight, s)
  {
    if s == [] {
      TotalCons(weight, x, s);
      assert [x] + s == [x];
    } else if KeyLess(key(s[0]), key(x)) {
      InsertTotal(weight, key, x, s[1..]);
      TotalCons(weight, s[0], Insert(key, x, s[1..]));
      TotalCons(weight, s[0], s[1..]);
      assert s == [s[0]] + s[1..];
    } else {
      TotalCons(weight, x, s);
    }
  }

  /** Sorting keeps sums. */
  lemma {:induction false} SortByTotal<T(!new)>(weight: T -> int, key: T -> SortKey, s: seq<T>)
    ensures Total(weight, SortBy(key, s)) == Total(weight, s)
  {
    if s != [] {
      SortByTotal(weight, key, s[1..]);
      InsertTotal(weight, key, s[0], SortBy(key, s[1..]));
      TotalCons(weight, s[0], s[1..]);
      assert s == [s[0]] + s[1..];
    }
  }

  /** The positions at which a condition holds. */
  ghost function Where<T>(s: seq<T>, holds: T -> bool): set<int> {
    set i | 0 <= i < |s| && holds(s[i])
  }

  lemma {:induction false} CountIndices<T(!new)>(s: seq<T>, weight: T -> int, holds: T -> bool)
    requires forall x :: weight(x) == if holds(x) then 1 else 0
    ensures Total(weight, s) == |Where(s, holds)|
  {
    if s != [] {
      var n := |s| - 1;
      CountIndices(s[..n], weight, holds);
      assert Where(s, holds) == Where(s[..n], holds) + if holds(s[n]) then {n} else {};
    }
  }
}
