/**
 What canonical text tells about strings and values as Python holds them: a string is any
 sequence of code points, and an unpaired surrogate is one of them. `json.dumps` prints a
 high surrogate directly before a low one like the one character they stand for, so text
 tells strings apart up to joining such pairs, and no further.
 */
module PythonStrings {
  import opened Sorting
  import opened JsonText
  import opened JsonOrder

  // ----- joining

  function Pair(h: CodePoint, l: CodePoint): (c: CodePoint)
    requires High(h) && Low(l)
    ensures c >= 0x10000
  {
    0x10000 + 0x400 * (h - 0xD800) + (l - 0xDC00)
  }

  /** Each high surrogate directly before a low one becomes, with it, one character. */
  function JoinPairs(s: PyString): PyString {
    if |s| < 2 then s
    else if High(s[0]) && Low(s[1]) then [Pair(s[0], s[1])] + JoinPairs(s[2..])
    else [s[0]] + JoinPairs(s[1..])
  }

  lemma {:induction false} JoinJoined(s: PyString)
    ensures Joined(JoinPairs(s))
    ensures |JoinPairs(s)| == 0 <==> |s| == 0
    ensures s != [] && Low(JoinPairs(s)[0]) ==> JoinPairs(s)[0] == s[0]
  {
    if |s| >= 2 {
      if High(s[0]) && Low(s[1]) {
        JoinJoined(s[2..]);
      } else {
        JoinJoined(s[1..]);
      }
    }
  }

  lemma {:induction false} JoinFixed(s: PyString)
    requires Joined(s)
    ensures JoinPairs(s) == s
  {
    if |s| >= 2 {
      assert !(High(s[0]) && Low(s[0 + 1]));
      JoinedTail(s);
      JoinFixed(s[1..]);
    }
  }

  lemma PairEscape(h: CodePoint, l: CodePoint)
    requires High(h) && Low(l)
    ensures Escape(Pair(h, l)) == Escape(h) + Escape(l)
  {
    var c := Pair(h, l);
    assert c - 0x10000 == 0x400 * (h - 0xD800) + (l - 0xDC00);
    assert FirstCodeUnit(c) == h && SecondCodeUnit(c) == l;
  }

  /** Joining does not show in the text. */
  lemma {:induction false} JoinKeepsBody(s: PyString)
    ensures Body(JoinPairs(s)) == Body(s)
  {
    if |s| >= 2 {
      if High(s[0]) && Low(s[1]) {
        var c := Pair(s[0], s[1]);
        assert ([c] + JoinPairs(s[2..]))[1..] == JoinPairs(s[2..]) && s[1..][1..] == s[2..];
        PairEscape(s[0], s[1]);
        JoinKeepsBody(s[2..]);
        Regroup(Escape(s[0]), Escape(s[1]), Body(s[2..]), "");
      } else {
        assert ([s[0]] + JoinPairs(s[1..]))[1..] == JoinPairs(s[1..]);
        JoinKeepsBody(s[1..]);
      }
    }
  }

  // ----- strings

  /** Two strings have one text exactly if they join to one string. */
  lemma SameTextExactly(s: PyString, t: PyString)
    ensures QuotePoints(s) == QuotePoints(t) <==> JoinPairs(s) == JoinPairs(t)
  {
    JoinKeepsBody(s);
    JoinKeepsBody(t);
    JoinJoined(s);
    JoinJoined(t);
    if QuotePoints(s) == QuotePoints(t) {
      assert QuotePoints(JoinPairs(s)) + "" == QuotePoints(JoinPairs(t)) + "";
      QuotePointsUnique(JoinPairs(s), JoinPairs(t), "", "");
    }
  }

  /** On a set of strings, text tells them apart exactly if joining does. */
  lemma JoinedExactly(s: PyString)
    ensures Joined(s) <==> JoinPairs(s) == s
    ensures Joined(s) <==> forall t :: Joined(t) && QuotePoints(t) == QuotePoints(s) ==> t == s
  {
    JoinJoined(s);
    SameTextExactly(JoinPairs(s), s);
    JoinFixed(JoinPairs(s));
    if Joined(s) {
      JoinFixed(s);
      forall t | Joined(t) && QuotePoints(t) == QuotePoints(s) ensures t == s {
        SameTextExactly(s, t);
        JoinFixed(t);
      }
    }
  }

  /** The surrogates of U+1F600, one after the other, print like U+1F600. */
  lemma SurrogatesCollide()
    ensures QuotePoints([0xD83D, 0xDE00]) == QuotePoints([0x1F600])
    ensures !Joined([0xD83D, 0xDE00]) && Joined([0x1F600])
  {
    var s: PyString, t: PyString := [0xD83D, 0xDE00], [0x1F600];
    assert High(s[0]) && Low(s[0 + 1]);
    assert s[2..] == [] && JoinPairs(s) == [Pair(s[0], s[1])] + JoinPairs([]);
    assert JoinPairs(s) == t == JoinPairs(t);
    SameTextExactly(s, t);
  }

  // ----- values

  type PyJson = JsonOf<PyString>

  type JoinedString = s: PyString | Joined(s)

  function JoinString(s: PyString): JoinedString {
    JoinJoined(s);
    JoinPairs(s)
  }

  /** A value with all its strings replaced, names of members included. */
  function MapStrings<S, T>(f: S -> T, j: JsonOf<S>): JsonOf<T>
    decreases j, 1
  {
    match j
    case Null => Null
    case Bool(b) => Bool(b)
    case Int(n) => Int(n)
    case Float(literal) => Float(literal)
    case Str(s) => Str(f(s))
    case Arr(items) => Arr(MapItems(f, items))
    case Obj(members) => Obj(MapMembers(f, members))
  }

  function MapItems<S, T>(f: S -> T, items: seq<JsonOf<S>>): (r: seq<JsonOf<T>>)
    ensures |r| == |items| && forall i :: 0 <= i < |r| ==> r[i] == MapStrings(f, items[i])
    decreases items, 0
  {
    if items == [] then [] else [MapStrings(f, items[0])] + MapItems(f, items[1..])
  }

  function MapMember<S, T>(f: S -> T, m: MemberOf<S>): MemberOf<T>
    decreases m, 2
  {
    Member(f(m.name), MapStrings(f, m.value))
  }

  function MapMembers<S, T>(f: S -> T, members: seq<MemberOf<S>>): (r: seq<MemberOf<T>>)
    ensures |r| == |members| && forall i :: 0 <= i < |r| ==> r[i] == MapMember(f, members[i])
    decreases members, 0
  {
    if members == [] then [] else [MapMember(f, members[0])] + MapMembers(f, members[1..])
  }

  /** Replaced strings that are quoted alike leave the text of a value as it was. */
  lemma {:induction false} MapKeepsText<S(!new), T>(f: S -> T, q: S -> string, p: T -> string, j: JsonOf<S>)
    requires forall s :: p(f(s)) == q(s)
    ensures RenderWith(p, MapStrings(f, j)) == RenderWith(q, j)
    decreases j, 1
  {
    match j {
      case Arr(items) => MapKeepsItems(f, q, p, items);
      case Obj(members) => MapKeepsMembers(f, q, p, members);
      case _ =>
    }
  }

  lemma {:induction false} MapKeepsItems<S(!new), T>(f: S -> T, q: S -> string, p: T -> string, items: seq<JsonOf<S>>)
    requires forall s :: p(f(s)) == q(s)
    ensures OpenWith(p, MapItems(f, items)) == OpenWith(q, items)
    ensures ItemsWith(p, MapItems(f, items)) == ItemsWith(q, items)
    decreases items, 0
  {
    if items != [] {
      MapKeepsText(f, q, p, items[0]);
      MapKeepsItems(f, q, p, items[1..]);
      assert MapItems(f, items)[1..] == MapItems(f, items[1..]);
    }
  }

  lemma {:induction false} MapKeepsMember<S(!new), T>(f: S -> T, q: S -> string, p: T -> string, m: MemberOf<S>)
    requires forall s :: p(f(s)) == q(s)
    ensures MemberWith(p, MapMember(f, m)) == MemberWith(q, m)
    decreases m, 2
  {
    MapKeepsText(f, q, p, m.value);
  }

  lemma {:induction false} MapKeepsMembers<S(!new), T>(f: S -> T, q: S -> string, p: T -> string, members: seq<MemberOf<S>>)
    requires forall s :: p(f(s)) == q(s)
    ensures OpenMembersWith(p, MapMembers(f, members)) == OpenMembersWith(q, members)
    ensures MembersWith(p, MapMembers(f, members)) == MembersWith(q, members)
    decreases members, 0
  {
    if members != [] {
      MapKeepsMember(f, q, p, members[0]);
      MapKeepsMembers(f, q, p, members[1..]);
      assert MapMembers(f, members)[1..] == MapMembers(f, members[1..]);
    }
  }

  /** A value with all its strings joined. */
  function JoinValue(j: PyJson): JsonOf<JoinedString> { MapStrings(JoinString, j) }

  /** A value of scalar texts, as the other modules use it, as a value of code points. */
  function PointsValue(j: Json): PyJson { MapStrings(Points, j) }

  /** The canonical text of a value as Python holds it. */
  function PyText(j: PyJson): string { RenderWith(QuotePoints, j) }

  lemma PointsText(j: Json)
    ensures PyText(PointsValue(j)) == Render(j)
  {
    MapKeepsText(Points, Quote, QuotePoints, j);
  }

  function QuoteJoined(s: JoinedString): string { QuotePoints(s) }

  lemma QuoteJoinedDelimits()
    ensures SelfDelimiting(QuoteJoined)
  {
    forall s: JoinedString, t: JoinedString, x, y | QuoteJoined(s) + x == QuoteJoined(t) + y ensures s == t && x == y {
      QuotePointsUnique(s, t, x, y);
    }
  }

  /** Joining does not show in the text of a value. */
  lemma JoinKeepsText(j: PyJson)
    ensures RenderWith(QuoteJoined, JoinValue(j)) == PyText(j)
  {
    forall s ensures QuoteJoined(JoinString(s)) == QuotePoints(s) { JoinKeepsBody(s); }
    MapKeepsText(JoinString, QuotePoints, QuoteJoined, j);
  }

  /** Two values have one canonical text exactly if they are equal once their strings are joined. */
  lemma SameValueTextExactly(a: PyJson, b: PyJson)
    ensures PyText(a) == PyText(b) <==> JoinValue(a) == JoinValue(b)
  {
    JoinKeepsText(a);
    JoinKeepsText(b);
    QuoteJoinedDelimits();
    if PyText(a) == PyText(b) {
      RenderWithInjective(QuoteJoined, JoinValue(a), JoinValue(b));
    }
  }

  // ----- sorting by canonical text

  function PyTextKey(j: PyJson): SortKey { [PyText(j)] }

  lemma SameKeyExactly(a: PyJson, b: PyJson)
    ensures PyTextKey(a) == PyTextKey(b) <==> JoinValue(a) == JoinValue(b)
  {
    hide PyText;
    SameValueTextExactly(a, b);
    assert PyTextKey(a) == PyTextKey(b) <==> PyTextKey(a)[0] == PyTextKey(b)[0];
  }

  /**
   Sorting different values by canonical text forgets the order they came in exactly if no
   two of them are equal once joined.
   */
  lemma CanonicalOrderExactly(values: seq<PyJson>)
    requires NoRepeats(values)
    ensures ForgetsOrder(PyTextKey, values)
       <==> (forall a, b :: a in values && b in values && JoinValue(a) == JoinValue(b) ==> a == b)
  {
    hide ForgetsOrder, PyTextKey, JoinValue;
    ForgetsOrderExactly(PyTextKey, values);
    forall a, b ensures PyTextKey(a) == PyTextKey(b) <==> JoinValue(a) == JoinValue(b) {
      SameKeyExactly(a, b);
    }
  }
}
