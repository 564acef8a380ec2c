/**
 What sort keys and fingerprints rely on in the compact JSON text: it is injective, it
 delimits itself, and appending the same item to two arrays keeps their order.
 */
module JsonOrder {
  import opened Texts
  import opened JsonText

  /** What may follow a value inside an array or object, or at the end of the text. */
  predicate Ends(x: string) {
    x == "" || x[0] == ',' || x[0] == ']' || x[0] == '}'
  }

  /** The kind of value a first character announces; 7 when none starts with it. */
  function Announces(c: char): nat {
    if c == 'n' then 0 else if c == 't' then 1 else if c == 'f' then 2
    else if c == '-' || IsDigit(c) then 3
    else if c == '\"' then 4 else if c == '[' then 5 else if c == '{' then 6 else 7
  }

  function KindOf<S>(j: JsonOf<S>): nat {
    match j
    case Null => 0
    case Bool(b) => if b then 1 else 2
    case Int(_) => 3
    case Float(_) => 3
    case Str(_) => 4
    case Arr(_) => 5
    case Obj(_) => 6
  }

  /** Every quoted string starts with a quote and ends where it says. */
  ghost predicate SelfDelimiting<S(!new)>(quote: S -> string) {
    && (forall s :: quote(s) != "" && quote(s)[0] == '\"')
    && (forall s, t, x, y :: quote(s) + x == quote(t) + y ==> s == t && x == y)
  }

  lemma RenderStart<S(!new)>(quote: S -> string, j: JsonOf<S>)
    requires SelfDelimiting(quote)
    ensures RenderWith(quote, j) != "" && Announces(RenderWith(quote, j)[0]) == KindOf(j)
  {
    match j
    case Int(n) => if n >= 0 { assert Digits(n)[0] in Digits(n); }
    case _ =>
  }

  // ----- numbers

  lemma {:induction false} DigitsUnique(m: nat, n: nat)
    requires Digits(m) == Digits(n)
    ensures m == n
  {
    assert m >= 10 ==> |Digits(m)| >= 2;
    assert n >= 10 ==> |Digits(n)| >= 2;
    if m >= 10 {
      var p, q := Digits(m / 10), Digits(n / 10);
      assert p == Digits(m)[..|Digits(m)| - 1] && q == Digits(n)[..|Digits(n)| - 1];
      assert Digits(m)[|p|] == Digit(m % 10) && Digits(n)[|q|] == Digit(n % 10);
      DigitsUnique(m / 10, n / 10);
    }
  }

  lemma DecimalUnique(m: int, n: int)
    requires Decimal(m) == Decimal(n)
    ensures m == n
  {
    assert m >= 0 ==> Digits(m)[0] in Digits(m);
    assert n >= 0 ==> Digits(n)[0] in Digits(n);
    if m < 0 && n < 0 {
      assert Digits(-m) == Decimal(m)[1..] == Decimal(n)[1..] == Digits(-n);
      DigitsUnique(-m, -n);
    } else if m >= 0 && n >= 0 {
      DigitsUnique(m, n);
    }
  }

  lemma {:induction false} NumberSplit(a: string, b: string, x: string, y: string)
    requires forall c :: c in a ==> IsNumberChar(c)
    requires forall c :: c in b ==> IsNumberChar(c)
    requires Ends(x) && Ends(y) && a + x == b + y
    ensures a == b && x == y
  {
    assert a != "" ==> a[0] in a && (a + x)[0] == a[0];
    assert b != "" ==> b[0] in b && (b + y)[0] == b[0];
    assert a == "" ==> a + x == x;
    assert b == "" ==> b + y == y;
    if a != "" {
      assert (a + x)[1..] == a[1..] + x && (b + y)[1..] == b[1..] + y;
      NumberSplit(a[1..], b[1..], x, y);
      assert a == [a[0]] + a[1..] && b == [b[0]] + b[1..];
    }
  }

  lemma NumberUnique<S>(quote: S -> string, a: JsonOf<S>, b: JsonOf<S>, x: string, y: string)
    requires IsNumber(a) && IsNumber(b) && Ends(x) && Ends(y)
    requires RenderWith(quote, a) + x == RenderWith(quote, b) + y
    ensures a == b && x == y
  {
    NumberSplit(RenderWith(quote, a), RenderWith(quote, b), x, y);
    assert a.Int? ==> '.' !in Decimal(a.n) && 'e' !in Decimal(a.n);
    assert b.Int? ==> '.' !in Decimal(b.n) && 'e' !in Decimal(b.n);
    if a.Int? {
      DecimalUnique(a.n, b.n);
    }
  }

  // ----- where strings delimit themselves, so do values

  lemma ItemsShape<S(!new)>(quote: S -> string, u: seq<JsonOf<S>>, x: string)
    requires SelfDelimiting(quote)
    ensures u == [] ==> ItemsWith(quote, u) + "]" + x == "]" + x
    ensures u != [] ==> ItemsWith(quote, u) + "]" + x == RenderWith(quote, u[0]) + (OpenWith(quote, u[1..]) + "]" + x)
    ensures (ItemsWith(quote, u) + "]" + x)[0] == ']' <==> u == []
  {
    if u != [] {
      RenderStart(quote, u[0]);
      Regroup(RenderWith(quote, u[0]), OpenWith(quote, u[1..]), "]", x);
    }
  }

  lemma OpenShape<S>(quote: S -> string, u: seq<JsonOf<S>>, x: string)
    ensures u == [] ==> OpenWith(quote, u) + "]" + x == "]" + x
    ensures u != [] ==> OpenWith(quote, u) + "]" + x == "," + (RenderWith(quote, u[0]) + (OpenWith(quote, u[1..]) + "]" + x))
  {
    if u != [] {
      Regroup(",", RenderWith(quote, u[0]), OpenWith(quote, u[1..]), "]");
      Regroup(",", RenderWith(quote, u[0]) + OpenWith(quote, u[1..]), "]", x);
      Regroup(RenderWith(quote, u[0]), OpenWith(quote, u[1..]), "]", x);
    }
  }

  lemma MembersShape<S(!new)>(quote: S -> string, u: seq<MemberOf<S>>, x: string)
    requires SelfDelimiting(quote)
    ensures u == [] ==> MembersWith(quote, u) + "}" + x == "}" + x
    ensures u != [] ==> MembersWith(quote, u) + "}" + x == MemberWith(quote, u[0]) + (OpenMembersWith(quote, u[1..]) + "}" + x)
    ensures (MembersWith(quote, u) + "}" + x)[0] == '}' <==> u == []
  {
    if u != [] {
      Regroup(MemberWith(quote, u[0]), OpenMembersWith(quote, u[1..]), "}", x);
    }
  }

  lemma OpenMembersShape<S>(quote: S -> string, u: seq<MemberOf<S>>, x: string)
    ensures u == [] ==> OpenMembersWith(quote, u) + "}" + x == "}" + x
    ensures u != [] ==> OpenMembersWith(quote, u) + "}" + x == "," + (MemberWith(quote, u[0]) + (OpenMembersWith(quote, u[1..]) + "}" + x))
  {
    if u != [] {
      var m, o := MemberWith(quote, u[0]), OpenMembersWith(quote, u[1..]);
      Regroup(",", m, o, "}");
      Regroup(",", m + o, "}", x);
      Regroup(m, o, "}", x);
    }
  }

  /** Two texts that start alike come from the same value, and so do their rests. */
  lemma {:induction false} RenderUnique<S(!new)>(quote: S -> string, a: JsonOf<S>, b: JsonOf<S>, x: string, y: string)
    requires SelfDelimiting(quote)
    requires RenderWith(quote, a) + x == RenderWith(quote, b) + y
    requires IsNumber(a) || IsNumber(b) ==> Ends(x) && Ends(y)
    ensures a == b && x == y
    decreases a, 1
  {
    RenderStart(quote, a);
    RenderStart(quote, b);
    assert (RenderWith(quote, a) + x)[0] == RenderWith(quote, a)[0];
    assert (RenderWith(quote, b) + y)[0] == RenderWith(quote, b)[0];
    Cut(RenderWith(quote, a), x);
    Cut(RenderWith(quote, b), y);
    match a {
      case Null =>
      case Bool(_) =>
      case Int(_) => NumberUnique(quote, a, b, x, y);
      case Float(_) => NumberUnique(quote, a, b, x, y);
      case Str(s) => assert s == b.s;
      case Arr(items) =>
        var i, j := ItemsWith(quote, items), ItemsWith(quote, b.items);
        Regroup("[", i, "]", x);
        Regroup("[", j, "]", y);
        Cut("[", i + "]" + x);
        Cut("[", j + "]" + y);
        ItemsUnique(quote, items, b.items, x, y);
      case Obj(members) =>
        var i, j := MembersWith(quote, members), MembersWith(quote, b.members);
        Regroup("{", i, "}", x);
        Regroup("{", j, "}", y);
        Cut("{", i + "}" + x);
        Cut("{", j + "}" + y);
        MembersUnique(quote, members, b.members, x, y);
    }
  }

  lemma {:induction false} ItemsUnique<S(!new)>(quote: S -> string, u: seq<JsonOf<S>>, v: seq<JsonOf<S>>, x: string, y: string)
    requires SelfDelimiting(quote) && ItemsWith(quote, u) + "]" + x == ItemsWith(quote, v) + "]" + y
    ensures u == v && x == y
    decreases u, 1
  {
    ItemsShape(quote, u, x);
    ItemsShape(quote, v, y);
    if u == [] {
      Cut("]", x);
      Cut("]", y);
    } else {
      FirstItemUnique(quote, u, v, x, y);
    }
  }

  lemma {:induction false} OpenUnique<S(!new)>(quote: S -> string, u: seq<JsonOf<S>>, v: seq<JsonOf<S>>, x: string, y: string)
    requires SelfDelimiting(quote) && OpenWith(quote, u) + "]" + x == OpenWith(quote, v) + "]" + y
    ensures u == v && x == y
    decreases u, 1
  {
    OpenShape(quote, u, x);
    OpenShape(quote, v, y);
    if u == [] {
      Cut("]", x);
      Cut("]", y);
    } else {
      Cut(",", RenderWith(quote, u[0]) + (OpenWith(quote, u[1..]) + "]" + x));
      Cut(",", RenderWith(quote, v[0]) + (OpenWith(quote, v[1..]) + "]" + y));
      FirstItemUnique(quote, u, v, x, y);
    }
  }

  lemma {:induction false} FirstItemUnique<S(!new)>(quote: S -> string, u: seq<JsonOf<S>>, v: seq<JsonOf<S>>, x: string, y: string)
    requires SelfDelimiting(quote) && u != [] && v != []
    requires RenderWith(quote, u[0]) + (OpenWith(quote, u[1..]) + "]" + x) == RenderWith(quote, v[0]) + (OpenWith(quote, v[1..]) + "]" + y)
    ensures u == v && x == y
    decreases u, 0
  {
    OpenShape(quote, u[1..], x);
    OpenShape(quote, v[1..], y);
    RenderUnique(quote, u[0], v[0], OpenWith(quote, u[1..]) + "]" + x, OpenWith(quote, v[1..]) + "]" + y);
    OpenUnique(quote, u[1..], v[1..], x, y);
    assert u == [u[0]] + u[1..] && v == [v[0]] + v[1..];
  }

  lemma {:induction false} MembersUnique<S(!new)>(quote: S -> string, u: seq<MemberOf<S>>, v: seq<MemberOf<S>>, x: string, y: string)
    requires SelfDelimiting(quote) && MembersWith(quote, u) + "}" + x == MembersWith(quote, v) + "}" + y
    ensures u == v && x == y
    decreases u, 1
  {
    MembersShape(quote, u, x);
    MembersShape(quote, v, y);
    if u == [] {
      Cut("}", x);
      Cut("}", y);
    } else {
      FirstMemberUnique(quote, u, v, x, y);
    }
  }

  lemma {:induction false} OpenMembersUnique<S(!new)>(quote: S -> string, u: seq<MemberOf<S>>, v: seq<MemberOf<S>>, x: string, y: string)
    requires SelfDelimiting(quote) && OpenMembersWith(quote, u) + "}" + x == OpenMembersWith(quote, v) + "}" + y
    ensures u == v && x == y
    decreases u, 1
  {
    OpenMembersShape(quote, u, x);
    OpenMembersShape(quote, v, y);
    if u == [] {
      Cut("}", x);
      Cut("}", y);
    } else {
      Cut(",", MemberWith(quote, u[0]) + (OpenMembersWith(quote, u[1..]) + "}" + x));
      Cut(",", MemberWith(quote, v[0]) + (OpenMembersWith(quote, v[1..]) + "}" + y));
      FirstMemberUnique(quote, u, v, x, y);
    }
  }

  lemma {:induction false} FirstMemberUnique<S(!new)>(quote: S -> string, u: seq<MemberOf<S>>, v: seq<MemberOf<S>>, x: string, y: string)
    requires SelfDelimiting(quote) && u != [] && v != []
    requires MemberWith(quote, u[0]) + (OpenMembersWith(quote, u[1..]) + "}" + x)
          == MemberWith(quote, v[0]) + (OpenMembersWith(quote, v[1..]) + "}" + y)
    ensures u == v && x == y
    decreases u, 0
  {
    OpenMembersShape(quote, u[1..], x);
    OpenMembersShape(quote, v[1..], y);
    MemberUnique(quote, u[0], v[0], OpenMembersWith(quote, u[1..]) + "}" + x, OpenMembersWith(quote, v[1..]) + "}" + y);
    OpenMembersUnique(quote, u[1..], v[1..], x, y);
    assert u == [u[0]] + u[1..] && v == [v[0]] + v[1..];
  }

  lemma {:induction false} MemberUnique<S(!new)>(quote: S -> string, m: MemberOf<S>, n: MemberOf<S>, x: string, y: string)
    requires SelfDelimiting(quote) && Ends(x) && Ends(y)
    requires MemberWith(quote, m) + x == MemberWith(quote, n) + y
    ensures m == n && x == y
    decreases m, 2
  {
    var s, t := RenderWith(quote, m.value), RenderWith(quote, n.value);
    Regroup(quote(m.name), ":", s, x);
    Regroup(quote(n.name), ":", t, y);
    Regroup(":", s, x, "");
    Regroup(":", t, y, "");
    assert quote(m.name) + (":" + s + x) == quote(n.name) + (":" + t + y);
    Cut(":", s + x);
    Cut(":", t + y);
    RenderUnique(quote, m.value, n.value, x, y);
  }

  /** Equal text means equal value, whatever strings a value holds, if their texts delimit themselves. */
  lemma RenderWithInjective<S(!new)>(quote: S -> string, a: JsonOf<S>, b: JsonOf<S>)
    requires SelfDelimiting(quote) && RenderWith(quote, a) == RenderWith(quote, b)
    ensures a == b
  {
    assert RenderWith(quote, a) + "" == RenderWith(quote, b) + "";
    RenderUnique(quote, a, b, "", "");
  }

  lemma QuoteDelimits()
    ensures SelfDelimiting(Quote)
  {
    forall s, t, x, y | Quote(s) + x == Quote(t) + y ensures s == t && x == y {
      QuoteUnique(s, t, x, y);
    }
  }

  /** Equal text means equal value: the fingerprint of a normalized value identifies it. */
  lemma RenderInjective(a: Json, b: Json)
    requires Render(a) == Render(b)
    ensures a == b
  {
    QuoteDelimits();
    RenderWithInjective(Quote, a, b);
  }

  // ----- the printed forms

  /** The value of a lower-case hexadecimal digit. */
  function HexValue(c: char): int {
    if '0' <= c <= '9' then c as int - '0' as int else if 'a' <= c <= 'f' then 10 + (c as int - 'a' as int) else -1
  }

  /** A long escape spells its code unit with four lower-case hexadecimal digits. */
  lemma UnitSpelled(n: nat)
    requires n < 0x10000
    ensures var s := UnitEscape(n);
      && |s| == 6 && s[..2] == "\\u" && (forall i :: 2 <= i < 6 ==> HexValue(s[i]) >= 0)
      && n == ((HexValue(s[2]) * 16 + HexValue(s[3])) * 16 + HexValue(s[4])) * 16 + HexValue(s[5])
  {
    HexSpelled(n / 0x10 / 0x10 / 0x10);
    HexSpelled(n / 0x10 / 0x10 % 0x10);
    HexSpelled(n / 0x10 % 0x10);
    HexSpelled(n % 0x10);
  }

  lemma HexSpelled(d: nat)
    requires d < 16
    ensures HexValue(HexDigit(d)) == d
  {
  }

  /** Short escapes, and when the long ones are used: for every code point outside ' '..'~', once or as a pair. */
  lemma EscapesExactly(c: CodePoint)
    ensures Escape(0x22) == "\\\"" && Escape(0x5C) == "\\\\" && Escape(0x08) == "\\b" && Escape(0x0C) == "\\f"
    ensures Escape(0x0A) == "\\n" && Escape(0x0D) == "\\r" && Escape(0x09) == "\\t"
    ensures 0x20 <= c <= 0x7E && c != 0x22 && c != 0x5C ==> Escape(c) == [c as char]
    ensures (c < 0x20 && c !in {0x08, 0x09, 0x0A, 0x0C, 0x0D}) || 0x7F <= c < 0x10000 ==> Escape(c) == UnitEscape(c)
    ensures c >= 0x10000 ==> Escape(c) == UnitEscape(0xD800 + (c - 0x10000) / 0x400) + UnitEscape(0xDC00 + (c - 0x10000) % 0x400)
  {
  }

  lemma OpenOne(x: Json, rest: seq<Json>)
    ensures Open([x] + rest) == "," + Render(x) + Open(rest)
    ensures Items([x] + rest) == Render(x) + Open(rest)
  {
    assert ([x] + rest)[1..] == rest;
  }

  lemma PlainName(c: char)
    requires 'a' <= c <= 'z'
    ensures Quote([c]) == "\"" + [c] + "\""
  {
    var points: PyString := [c as int];
    assert Points([c]) == points;
    assert points[1..] == [] && Escape(c as int) == [c];
    assert Body(points) == Escape(points[0]) + Body(points[1..]);
    assert Body([]) == "";
  }

  lemma PrintedItems()
    ensures Render(Arr([Bool(true), Int(-12)])) == "[true,-12]"
  {
    var a, b := Bool(true), Int(-12);
    assert Digits(12) == Digits(1) + [Digit(2)] == "12";
    assert Render(a) == "true" && Render(b) == "-12" && Open([]) == "";
    ArrayText([a] + [b]);
    hide Render, Open, Items;
    OpenOne(b, []);
    OpenOne(a, [b]);
    assert [b] + [] == [b] && [a] + [b] == [a, b];
  }

  lemma ArrayText(u: seq<Json>)
    ensures Render(Arr(u)) == "[" + Items(u) + "]"
  {
  }

  lemma TwoMembers(m: Member, n: Member)
    ensures Render(Obj([m, n])) == "{" + MemberWith(Quote, m) + "," + MemberWith(Quote, n) + "}"
  {
    hide MemberWith;
    assert [m, n][1..] == [n] && [n][1..] == [];
    var x, y := MemberWith(Quote, m), MemberWith(Quote, n);
    assert OpenMembersWith(Quote, [n]) == "," + y + OpenMembersWith(Quote, []);
    assert OpenMembersWith(Quote, []) == "";
    assert MembersWith(Quote, [m, n]) == x + OpenMembersWith(Quote, [n]);
  }

  /** One value with members, items, a number and truth values, and its text. */
  lemma Printed()
    ensures Render(Obj([Member("a", Arr([Bool(true), Int(-12)])), Member("b", Bool(false))]))
         == "{\"a\":[true,-12],\"b\":false}"
  {
    hide Quote, Render, MemberWith;
    PrintedFirst();
    PrintedSecond();
    TwoMembers(Member("a", Arr([Bool(true), Int(-12)])), Member("b", Bool(false)));
  }

  lemma PrintedFirst()
    ensures MemberWith(Quote, Member("a", Arr([Bool(true), Int(-12)]))) == "\"a\":[true,-12]"
  {
    hide Quote, Render, MemberWith;
    PrintedItems();
    PlainName('a');
    assert ['a'] == "a";
    MemberText("a", Arr([Bool(true), Int(-12)]));
  }

  lemma PrintedSecond()
    ensures MemberWith(Quote, Member("b", Bool(false))) == "\"b\":false"
  {
    assert Render(Bool(false)) == "false";
    hide Quote, Render, MemberWith;
    PlainName('b');
    assert ['b'] == "b";
    MemberText("b", Bool(false));
  }

  lemma MemberText(name: string, value: Json)
    ensures MemberWith(Quote, Member(name, value)) == Quote(name) + ":" + Render(value)
  {
  }

  // ----- order

  /** The texts of two different values are told apart before either of them ends. */
  lemma RenderApart(a: Json, b: Json)
    requires a != b && !IsNumber(a) && !IsNumber(b)
    ensures Apart(Render(a), Render(b))
  {
    QuoteDelimits();
    var s, t := Render(a), Render(b);
    ApartOrPrefix(s, t);
    if !Apart(s, t) {
      if s <= t {
        assert t + "" == s + t[|s|..];
        RenderUnique(Quote, a, b, t[|s|..], "");
      } else {
        assert s + "" == t + s[|t|..];
        RenderUnique(Quote, a, b, "", s[|t|..]);
      }
    }
  }

  ghost predicate NoNumbers(items: seq<Json>) {
    forall i :: 0 <= i < |items| ==> !IsNumber(items[i])
  }

  lemma {:induction false} OpenApart(u: seq<Json>, v: seq<Json>)
    requires |u| == |v| && u != v && NoNumbers(u) && NoNumbers(v)
    ensures Apart(Open(u), Open(v))
  {
    var s, t := Render(u[0]), Render(v[0]);
    Regroup(",", s, Open(u[1..]), "");
    Regroup(",", t, Open(v[1..]), "");
    SharedPrefix(",", s + Open(u[1..]), t + Open(v[1..]));
    if u[0] == v[0] {
      assert u == [u[0]] + u[1..] && v == [v[0]] + v[1..];
      OpenApart(u[1..], v[1..]);
      SharedPrefix(s, Open(u[1..]), Open(v[1..]));
    } else {
      RenderApart(u[0], v[0]);
      ApartDecides(s, t, Open(u[1..]), Open(v[1..]));
    }
  }

  lemma {:induction false} OpenSnoc(u: seq<Json>, h: Json)
    ensures Open(u + [h]) == Open(u) + ("," + Render(h))
  {
    if u == [] {
      assert u + [h] == [h];
      assert Open([h]) == "," + Render(h) + Open([]);
    } else {
      assert (u + [h])[1..] == u[1..] + [h];
      OpenSnoc(u[1..], h);
      Regroup("," + Render(u[0]), Open(u[1..]), "," + Render(h), "");
    }
  }

  /** The text of a two-part key: a head and a list. */
  function KeyText(head: Json, list: seq<Json>): string {
    Render(Arr([head, Arr(list)]))
  }

  lemma FlattenKey(head: string, list: string)
    ensures "[" + (head + ("," + ("[" + list + "]") + "")) + "]" == "[" + (head + (",[" + (list + "]]")))
  {
  }

  /** A key with a nonempty list, cut after its head and after its list. */
  lemma KeyTextShape(head: Json, list: seq<Json>)
    requires list != []
    ensures KeyText(head, list) == "[" + (Render(head) + (",[" + (Open(list)[1..] + "]]")))
  {
    var parts := [head, Arr(list)];
    assert parts[1..] == [Arr(list)] && [Arr(list)][1..] == [];
    assert Items(parts) == Render(head) + Open([Arr(list)]);
    assert Open([]) == "";
    assert Open([Arr(list)]) == "," + Render(Arr(list)) + Open([Arr(list)][1..]);
    FlattenKey(Render(head), Items(list));
    assert Open(list) == "," + Render(list[0]) + Open(list[1..]);
    Regroup(",", Render(list[0]), Open(list[1..]), "");
    Cut(",", Items(list));
  }

  /**
   Among keys with lists of the same length, appending one item to both lists changes
   neither which key is smaller nor whether they are equal.
   */
  lemma AppendKeepsOrder(r: Json, u: seq<Json>, s: Json, v: seq<Json>, h: Json)
    requires |u| == |v| > 0 && NoNumbers(u) && NoNumbers(v) && !IsNumber(r) && !IsNumber(s)
    ensures Less(KeyText(r, u + [h]), KeyText(s, v + [h])) == Less(KeyText(r, u), KeyText(s, v))
  {
    KeyTextShape(r, u);
    KeyTextShape(s, v);
    KeyTextShape(r, u + [h]);
    KeyTextShape(s, v + [h]);
    var a, b := ",[" + (Open(u)[1..] + "]]"), ",[" + (Open(v)[1..] + "]]");
    var c, d := ",[" + (Open(u + [h])[1..] + "]]"), ",[" + (Open(v + [h])[1..] + "]]");
    SharedPrefix("[", Render(r) + a, Render(s) + b);
    SharedPrefix("[", Render(r) + c, Render(s) + d);
    if r != s {
      RenderApart(r, s);
      ApartDecides(Render(r), Render(s), a, b);
      ApartDecides(Render(r), Render(s), c, d);
    } else {
      SharedPrefix(Render(r), a, b);
      SharedPrefix(Render(r), c, d);
      AppendToListKeepsOrder(u, v, h);
    }
  }

  lemma AppendToListKeepsOrder(u: seq<Json>, v: seq<Json>, h: Json)
    requires |u| == |v| > 0 && NoNumbers(u) && NoNumbers(v)
    ensures Less(",[" + (Open(u + [h])[1..] + "]]"), ",[" + (Open(v + [h])[1..] + "]]"))
         == Less(",[" + (Open(u)[1..] + "]]"), ",[" + (Open(v)[1..] + "]]"))
  {
    if u == v {
      LessTotal(",[" + (Open(u)[1..] + "]]"), ",[" + (Open(u)[1..] + "]]"));
      LessTotal(",[" + (Open(u + [h])[1..] + "]]"), ",[" + (Open(u + [h])[1..] + "]]"));
    } else {
      OpenApart(u, v);
      OpenTail(u, h);
      OpenTail(v, h);
      SharedPrefix(",", Open(u)[1..], Open(v)[1..]);
      MiddleKeepsOrder(Open(u)[1..], Open(v)[1..], "," + Render(h));
    }
  }

  lemma OpenTail(u: seq<Json>, h: Json)
    requires u != []
    ensures Open(u) == "," + Open(u)[1..]
    ensures Open(u + [h])[1..] == Open(u)[1..] + ("," + Render(h))
  {
    OpenSnoc(u, h);
    hide Render;
    var rest := Items(u);
    Regroup(",", Render(u[0]), Open(u[1..]), "");
    assert Open(u) == "," + rest;
    Cut(",", rest);
    Regroup(",", rest, "," + Render(h), "");
    Cut(",", rest + ("," + Render(h)));
  }

  lemma MiddleKeepsOrder(p: string, q: string, t: string)
    requires Apart(p, q)
    ensures Less(",[" + (p + t + "]]"), ",[" + (q + t + "]]")) == Less(",[" + (p + "]]"), ",[" + (q + "]]"))
  {
    SharedPrefix(",[", p + "]]", q + "]]");
    SharedPrefix(",[", p + t + "]]", q + t + "]]");
    Regroup(p, t, "]]", "");
    Regroup(q, t, "]]", "");
    ApartDecides(p, q, "]]", "]]");
    ApartDecides(p, q, t + "]]", t + "]]");
  }
}
