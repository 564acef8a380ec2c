/**
 Compact JSON text as `canonical_json_bytes` prints it (sections 2 to 7 of RFC 8259): no
 spaces, every character outside ' '..'~' escaped. A string is any sequence of code points.
 A high surrogate directly before a low one prints like the character the two stand for; in
 every other string, escapes can be told apart.
 */
module JsonText {

  /** The text of a finite float: Python always prints a point or an exponent. */
  type FloatText = s: string | IsFloatText(s) witness "0.5"

  predicate IsFloatText(s: string) {
    && s != "" && (s[0] == '-' || IsDigit(s[0]))
    && (forall c :: c in s ==> IsNumberChar(c))
    && ('.' in s || 'e' in s)
  }

  predicate IsDigit(c: char) { '0' <= c <= '9' }

  predicate IsNumberChar(c: char) {
    IsDigit(c) || c in "+-.eE"
  }

  /** A normalized JSON value: the members of an object stand in the order of their names. */
  datatype JsonOf<S> =
    | Null
    | Bool(b: bool)
    | Int(n: int)
    | Float(literal: FloatText)
    | Str(s: S)
    | Arr(items: seq<JsonOf<S>>)
    | Obj(members: seq<MemberOf<S>>)

  datatype MemberOf<S> = Member(name: S, value: JsonOf<S>)

  type Json = JsonOf<string>

  type Member = MemberOf<string>

  predicate IsNumber<S>(j: JsonOf<S>) { j.Int? || j.Float? }

  // ----- strings

  /** One character of a string of the source: any code point, also a surrogate on its own. */
  type CodePoint = n: nat | n < 0x110000

  type PyString = seq<CodePoint>

  predicate High(c: CodePoint) { 0xD800 <= c < 0xDC00 }

  predicate Low(c: CodePoint) { 0xDC00 <= c < 0xE000 }

  /** No high surrogate stands directly before a low one. */
  predicate Joined(s: PyString) {
    forall i :: 0 <= i < |s| - 1 ==> !(High(s[i]) && Low(s[i + 1]))
  }

  /** A text of scalar values, as the other modules use it, as a sequence of code points. */
  function Points(s: string): (r: PyString)
    ensures |r| == |s| && forall i :: 0 <= i < |r| ==> r[i] == s[i] as int
  {
    if s == "" then [] else [s[0] as int] + Points(s[1..])
  }

  lemma PointsJoined(s: string)
    ensures Joined(Points(s))
  {
  }

  lemma PointsInjective(s: string, t: string)
    requires Points(s) == Points(t)
    ensures s == t
  {
    assert |s| == |t|;
    forall i | 0 <= i < |s| ensures s[i] == t[i] {
      assert Points(s)[i] == Points(t)[i];
    }
  }

  // ----- printing

  function Digit(n: nat): char
    requires n < 10
  {
    '0' + n as char
  }

  function Digits(n: nat): (r: string)
    ensures r != "" && forall c :: c in r ==> IsDigit(c)
  {
    if n < 10 then [Digit(n)] else Digits(n / 10) + [Digit(n % 10)]
  }

  function Decimal(n: int): string {
    if n < 0 then "-" + Digits(-n) else Digits(n)
  }

  function HexDigit(n: nat): char
    requires n < 16
  {
    if n < 10 then '0' + n as char else 'a' + (n - 10) as char
  }

  /** The six-character escape of one UTF-16 code unit. */
  function UnitEscape(n: nat): string
    requires n < 0x10000
  {
    ['\\', 'u', HexDigit(n / 0x10 / 0x10 / 0x10), HexDigit(n / 0x10 / 0x10 % 0x10), HexDigit(n / 0x10 % 0x10), HexDigit(n % 0x10)]
  }

  function Escape(n: CodePoint): (r: string)
    ensures r != "" && r[0] != '\"'
  {
    if n == 34 then "\\\""
    else if n == 92 then "\\\\"
    else if n == 10 then "\\n"
    else if n == 13 then "\\r"
    else if n == 9 then "\\t"
    else if n == 12 then "\\f"
    else if n == 8 then "\\b"
    else if 32 <= n <= 126 then [n as char]
    else if n < 0x10000 then UnitEscape(n)
    else UnitEscape(FirstCodeUnit(n)) + UnitEscape(SecondCodeUnit(n))
  }

  /** The code unit of a character of the basic plane, or the high surrogate of another. */
  function FirstCodeUnit(c: CodePoint): (n: nat)
    ensures n < 0x10000
    ensures c < 0x10000 ==> n == c
    ensures c >= 0x10000 ==> 0xD800 <= n < 0xDC00
  {
    if c < 0x10000 then c else 0xD800 + (c - 0x10000) / 0x400
  }

  /** The low surrogate of a character outside the basic plane. */
  function SecondCodeUnit(c: CodePoint): (n: nat)
    requires c >= 0x10000
    ensures 0xDC00 <= n < 0xE000
    ensures c == 0x10000 + 0x400 * (FirstCodeUnit(c) - 0xD800) + (n - 0xDC00)
  {
    0xDC00 + (c - 0x10000) % 0x400
  }

  function Body(s: PyString): string {
    if s == [] then "" else Escape(s[0]) + Body(s[1..])
  }

  function QuotePoints(s: PyString): string {
    "\"" + Body(s) + "\""
  }

  function Quote(s: string): string {
    QuotePoints(Points(s))
  }

  /** The text of a value, given how its strings are quoted. */
  function RenderWith<S>(quote: S -> string, j: JsonOf<S>): string
    decreases j, 1
  {
    match j
    case Null => "null"
    case Bool(b) => if b then "true" else "false"
    case Int(n) => Decimal(n)
    case Float(literal) => literal
    case Str(s) => quote(s)
    case Arr(items) => "[" + ItemsWith(quote, items) + "]"
    case Obj(members) => "{" + MembersWith(quote, members) + "}"
  }

  function ItemsWith<S>(quote: S -> string, items: seq<JsonOf<S>>): string
    decreases items, 0
  {
    if items == [] then "" else RenderWith(quote, items[0]) + OpenWith(quote, items[1..])
  }

  /** Items that follow others, each after its comma. */
  function OpenWith<S>(quote: S -> string, items: seq<JsonOf<S>>): string
    decreases items, 0
  {
    if items == [] then "" else "," + RenderWith(quote, items[0]) + OpenWith(quote, items[1..])
  }

  function MemberWith<S>(quote: S -> string, m: MemberOf<S>): string
    decreases m, 2
  {
    quote(m.name) + ":" + RenderWith(quote, m.value)
  }

  function MembersWith<S>(quote: S -> string, members: seq<MemberOf<S>>): string
    decreases members, 0
  {
    if members == [] then "" else MemberWith(quote, members[0]) + OpenMembersWith(quote, members[1..])
  }

  function OpenMembersWith<S>(quote: S -> string, members: seq<MemberOf<S>>): string
    decreases members, 0
  {
    if members == [] then "" else "," + MemberWith(quote, members[0]) + OpenMembersWith(quote, members[1..])
  }

  function Render(j: Json): string { RenderWith(Quote, j) }

  function Items(items: seq<Json>): string { ItemsWith(Quote, items) }

  function Open(items: seq<Json>): string { OpenWith(Quote, items) }

  // ----- texts determine joined strings

  lemma HexDigitUnique(m: nat, n: nat)
    requires m < 16 && n < 16 && HexDigit(m) == HexDigit(n)
    ensures m == n
  {
  }

  lemma UnitEscapeUnique(m: nat, n: nat)
    requires m < 0x10000 && n < 0x10000
    requires UnitEscape(m) == UnitEscape(n)
    ensures m == n
  {
    var s, t := UnitEscape(m), UnitEscape(n);
    assert s[2] == t[2] && s[3] == t[3] && s[4] == t[4] && s[5] == t[5];
    HexDigitUnique(m / 0x10 / 0x10 / 0x10, n / 0x10 / 0x10 / 0x10);
    HexDigitUnique(m / 0x10 / 0x10 % 0x10, n / 0x10 / 0x10 % 0x10);
    HexDigitUnique(m / 0x10 % 0x10, n / 0x10 % 0x10);
    HexDigitUnique(m % 0x10, n % 0x10);
  }

  /** The shapes an escape can have. */
  lemma EscapeShape(c: CodePoint)
    ensures var s := Escape(c);
      || (32 <= c <= 126 && c != 34 && c != 92 && s == [c as char])
      || (|s| == 2 && s[0] == '\\' && s[1] != 'u')
      || (c < 0x10000 && s == UnitEscape(c))
      || (c >= 0x10000 && s == UnitEscape(FirstCodeUnit(c)) + UnitEscape(SecondCodeUnit(c)))
  {
  }

  lemma SurrogateEscape(c: CodePoint)
    requires High(c) || Low(c)
    ensures Escape(c) == UnitEscape(c)
  {
  }

  /** Units that start alike are alike. */
  lemma UnitsUnique(m: nat, n: nat, x: string, y: string)
    requires m < 0x10000 && n < 0x10000
    requires UnitEscape(m) + x == UnitEscape(n) + y
    ensures m == n && x == y
  {
    Cut(UnitEscape(m), x);
    Cut(UnitEscape(n), y);
    UnitEscapeUnique(m, n);
  }

  /** `x` goes on with the second half of the pair that `d` prints as, and `c` is the first half. */
  predicate Halves(c: CodePoint, d: CodePoint, x: string) {
    d >= 0x10000 && c == FirstCodeUnit(d) && UnitEscape(SecondCodeUnit(d)) <= x
  }

  lemma LongEscapeUnique(c: CodePoint, d: CodePoint, x: string, y: string)
    requires |Escape(c)| >= 6 && |Escape(d)| >= 6
    requires Escape(c) + x == Escape(d) + y
    ensures (c == d && x == y) || Halves(c, d, x) || Halves(d, c, y)
  {
    EscapeShape(c);
    EscapeShape(d);
    var m, n := FirstCodeUnit(c), FirstCodeUnit(d);
    var v := if c < 0x10000 then x else UnitEscape(SecondCodeUnit(c)) + x;
    var w := if d < 0x10000 then y else UnitEscape(SecondCodeUnit(d)) + y;
    if c >= 0x10000 { Regroup(UnitEscape(m), UnitEscape(SecondCodeUnit(c)), x, ""); }
    if d >= 0x10000 { Regroup(UnitEscape(n), UnitEscape(SecondCodeUnit(d)), y, ""); }
    UnitsUnique(m, n, v, w);
    if c >= 0x10000 && d >= 0x10000 {
      UnitsUnique(SecondCodeUnit(c), SecondCodeUnit(d), x, y);
    }
  }

  /** An escape starts another one only where a high surrogate stands before what prints like a low one. */
  lemma EscapeUnique(c: CodePoint, d: CodePoint, x: string, y: string)
    requires Escape(c) + x == Escape(d) + y
    ensures (c == d && x == y) || Halves(c, d, x) || Halves(d, c, y)
  {
    var s, t := Escape(c), Escape(d);
    EscapeShape(c);
    EscapeShape(d);
    assert (s + x)[0] == s[0] && (t + y)[0] == t[0];
    if |s| >= 6 && |t| >= 6 {
      LongEscapeUnique(c, d, x, y);
    } else if |s| >= 2 && |t| >= 2 {
      assert (s + x)[1] == s[1] && (t + y)[1] == t[1];
    }
    Cut(s, x);
    Cut(t, y);
  }

  lemma Regroup(a: string, b: string, c: string, d: string)
    ensures a + b + c == a + (b + c)
    ensures a + b + c + d == a + (b + c + d)
  {
  }

  lemma Cut(a: string, b: string)
    ensures a == (a + b)[..|a|] && b == (a + b)[|a|..]
  {
  }

  /** A string body goes on with an escape or ends at its quote; the first character tells which. */
  lemma BodyStart(s: PyString, x: string)
    ensures s == [] ==> Body(s) + "\"" + x == "\"" + x
    ensures s != [] ==> Body(s) + "\"" + x == Escape(s[0]) + (Body(s[1..]) + "\"" + x)
  {
    if s != [] {
      var e, rest := Escape(s[0]), Body(s[1..]);
      assert Body(s) == e + rest;
      Regroup(e, rest, "\"", x);
    }
  }

  /** Only a low surrogate prints like one. */
  lemma StartsLow(s: PyString, x: string, l: CodePoint)
    requires Low(l) && UnitEscape(l) <= Body(s) + "\"" + x
    ensures s != [] && s[0] == l
  {
    BodyStart(s, x);
    SurrogateEscape(l);
    var text := Body(s) + "\"" + x;
    assert text == Escape(l) + text[6..];
    assert text[0] == '\\';
    assert s != [];
    EscapeUnique(s[0], l, Body(s[1..]) + "\"" + x, text[6..]);
  }

  /** In a joined string a high surrogate is not followed by what prints like a low one. */
  lemma NoHalves(s: PyString, d: CodePoint, x: string)
    requires Joined(s) && s != []
    ensures !Halves(s[0], d, Body(s[1..]) + "\"" + x)
  {
    if Halves(s[0], d, Body(s[1..]) + "\"" + x) {
      StartsLow(s[1..], x, SecondCodeUnit(d));
    }
  }

  lemma JoinedTail(s: PyString)
    requires Joined(s) && s != []
    ensures Joined(s[1..])
  {
  }

  /** Joined strings that print alike up to their quote are equal, and so is what follows. */
  lemma {:induction false} BodyUnique(s: PyString, t: PyString, x: string, y: string)
    requires Joined(s) && Joined(t) && Body(s) + "\"" + x == Body(t) + "\"" + y
    ensures s == t && x == y
  {
    BodyStart(s, x);
    BodyStart(t, y);
    assert s != [] ==> (Body(s) + "\"" + x)[0] == Escape(s[0])[0];
    assert t != [] ==> (Body(t) + "\"" + y)[0] == Escape(t[0])[0];
    if s == [] {
      assert x == ("\"" + x)[1..] && y == ("\"" + y)[1..];
    } else {
      NoHalves(s, t[0], x);
      NoHalves(t, s[0], y);
      EscapeUnique(s[0], t[0], Body(s[1..]) + "\"" + x, Body(t[1..]) + "\"" + y);
      JoinedTail(s);
      JoinedTail(t);
      BodyUnique(s[1..], t[1..], x, y);
      assert s == [s[0]] + s[1..] && t == [t[0]] + t[1..];
    }
  }

  /** A quoted joined string ends at its own closing quote. */
  lemma QuotePointsUnique(s: PyString, t: PyString, x: string, y: string)
    requires Joined(s) && Joined(t) && QuotePoints(s) + x == QuotePoints(t) + y
    ensures s == t && x == y
  {
    assert (QuotePoints(s) + x)[1..] == Body(s) + "\"" + x;
    assert (QuotePoints(t) + y)[1..] == Body(t) + "\"" + y;
    BodyUnique(s, t, x, y);
  }

  lemma QuoteUnique(s: string, t: string, x: string, y: string)
    requires Quote(s) + x == Quote(t) + y
    ensures s == t && x == y
  {
    PointsJoined(s);
    PointsJoined(t);
    QuotePointsUnique(Points(s), Points(t), x, y);
    PointsInjective(s, t);
  }
}
