/**
 Property paths as JSON pointers (sections 3 and 4 of RFC 6901): parsing, printing, and the
 round trips in both directions.
 */
module Pointers {
  import opened Outcomes

  type Path = seq<string>

  // ----- the library calls of the source

  /** `text.split("/")`. */
  function Split(s: string): (parts: seq<string>)
    ensures parts != []
  {
    if s == "" then [""]
    else
      var rest := Split(s[1..]);
      if s[0] == '/' then [""] + rest else [[s[0]] + rest[0]] + rest[1..]
  }

  /** `"/".join(parts)`. */
  function Join(parts: seq<string>): string
    requires parts != []
  {
    if |parts| == 1 then parts[0] else parts[0] + "/" + Join(parts[1..])
  }

  /** `text.replace(c, sub)` for a one-character text. */
  function Replace(s: string, c: char, sub: string): string {
    if s == "" then "" else (if s[0] == c then sub else [s[0]]) + Replace(s[1..], c, sub)
  }

  // ----- printing

  function Encode(segment: string): string {
    Replace(Replace(segment, '~', "~0"), '/', "~1")
  }

  function EncodeAll(path: Path): (r: seq<string>)
    ensures |r| == |path|
  {
    if path == [] then [] else [Encode(path[0])] + EncodeAll(path[1..])
  }

  function Print(path: Path): string
    requires path != []
  {
    "/" + Join(EncodeAll(path))
  }

  // ----- parsing

  /** A segment with its escapes undone; None on an escape other than ~0 and ~1. */
  function Decode(raw: string): Option<string> {
    if raw == "" then Some("")
    else if raw[0] != '~' then Prepend(raw[0], Decode(raw[1..]))
    else if |raw| < 2 || (raw[1] != '0' && raw[1] != '1') then None
    else Prepend(if raw[1] == '0' then '~' else '/', Decode(raw[2..]))
  }

  function Prepend(c: char, rest: Option<string>): Option<string> {
    match rest
    case None => None
    case Some(s) => Some([c] + s)
  }

  function DecodeAll(raws: seq<string>): (r: Option<Path>)
    ensures r.Some? ==> |r.value| == |raws|
  {
    if raws == [] then Some([])
    else match (Decode(raws[0]), DecodeAll(raws[1..]))
      case (Some(s), Some(rest)) => Some([s] + rest)
      case _ => None
  }

  function Parse(pointer: string): (r: Option<Path>)
    ensures r.Some? ==> r.value != []
  {
    if pointer == "" || pointer[0] != '/' then None else DecodeAll(Split(pointer[1..]))
  }

  /** What a loop has collected so far, followed by what the rest yields. */
  ghost function After<T>(done: seq<T>, rest: Option<seq<T>>): Option<seq<T>> {
    match rest
    case None => None
    case Some(s) => Some(done + s)
  }

  lemma AfterStep<T>(done: seq<T>, x: T, rest: seq<T>)
    ensures After(done, Some([x] + rest)) == After(done + [x], Some(rest))
    ensures After([], Some(rest)) == Some(rest)
    ensures After(done, Some([])) == Some(done)
  {
    assert done + ([x] + rest) == done + [x] + rest;
    assert [] + rest == rest && done + [] == done;
  }

  /** The character loop over one raw segment. */
  method DecodeSegment(raw: string) returns (r: Option<string>)
    ensures r == Decode(raw)
  {
    var decoded, index := "", 0;
    assert raw[0..] == raw;
    if Decode(raw).Some? { AfterStep("", ' ', Decode(raw).value); }
    while index < |raw|
      invariant 0 <= index <= |raw|
      invariant Decode(raw) == After(decoded, Decode(raw[index..]))
    {
      var c, rest := raw[index], raw[index..];
      if c == '~' {
        if index + 1 >= |raw| || raw[index + 1] !in {'0', '1'} {
          return None;
        }
        assert rest[2..] == raw[index + 2..];
        var plain := if raw[index + 1] == '0' then '~' else '/';
        if Decode(rest[2..]).Some? { AfterStep(decoded, plain, Decode(rest[2..]).value); }
        decoded := decoded + [plain];
        index := index + 2;
      } else {
        assert rest[1..] == raw[index + 1..];
        if Decode(rest[1..]).Some? { AfterStep(decoded, c, Decode(rest[1..]).value); }
        decoded := decoded + [c];
        index := index + 1;
      }
    }
    assert raw[index..] == "";
    AfterStep(decoded, ' ', "");
    r := Some(decoded);
  }

  method ParsePointer(pointer: string) returns (r: Option<Path>)
    ensures r == Parse(pointer)
  {
    if pointer == "" || pointer[0] != '/' {
      return None;
    }
    var raws := Split(pointer[1..]);
    var segments: Path := [];
    assert raws[0..] == raws;
    if DecodeAll(raws).Some? { AfterStep([], "", DecodeAll(raws).value); }
    for i := 0 to |raws|
      invariant DecodeAll(raws) == After(segments, DecodeAll(raws[i..]))
    {
      assert raws[i..][1..] == raws[i + 1..];
      var decoded := DecodeSegment(raws[i]);
      match decoded {
        case None => return None;
        case Some(s) =>
          if DecodeAll(raws[i + 1..]).Some? { AfterStep(segments, s, DecodeAll(raws[i + 1..]).value); }
          segments := segments + [s];
      }
    }
    AfterStep(segments, "", []);
    r := Some(segments);
  }

  // ----- round trips

  lemma {:induction false} ReplaceCons(c: char, s: string, of: char, sub: string)
    ensures Replace([c] + s, of, sub) == (if c == of then sub else [c]) + Replace(s, of, sub)
  {
    assert ([c] + s)[1..] == s;
  }

  /** The two replacements in sequence escape character by character. */
  lemma {:induction false} EncodeCons(segment: string)
    requires segment != ""
    ensures Encode(segment)
      == (if segment[0] == '~' then "~0" else if segment[0] == '/' then "~1" else [segment[0]]) + Encode(segment[1..])
  {
    var c, t := segment[0], Replace(segment[1..], '~', "~0");
    if c == '~' {
      assert "~0" + t == ['~'] + (['0'] + t);
      ReplaceCons('~', ['0'] + t, '/', "~1");
      ReplaceCons('0', t, '/', "~1");
    } else {
      ReplaceCons(c, t, '/', "~1");
    }
  }

  lemma {:induction false} EncodeThenDecode(segment: string)
    ensures Decode(Encode(segment)) == Some(segment)
    ensures '/' !in Encode(segment)
  {
    if segment != "" {
      EncodeCons(segment);
      EncodeThenDecode(segment[1..]);
      var e, rest := Encode(segment), Encode(segment[1..]);
      assert segment[0] in "~/" ==> e[2..] == rest;
      assert segment[0] !in "~/" ==> e[1..] == rest;
      assert segment == [segment[0]] + segment[1..];
    }
  }

  lemma {:induction false} DecodeThenEncode(raw: string)
    requires '/' !in raw && Decode(raw).Some?
    ensures Encode(Decode(raw).value) == raw
  {
    if raw != "" {
      var k := if raw[0] == '~' then 2 else 1;
      var s := Decode(raw).value;
      DecodeThenEncode(raw[k..]);
      assert s[1..] == Decode(raw[k..]).value;
      EncodeCons(s);
      assert raw == raw[..k] + raw[k..];
    }
  }

  lemma {:induction false} JoinThenSplit(parts: seq<string>)
    requires parts != [] && forall i :: 0 <= i < |parts| ==> '/' !in parts[i]
    ensures Split(Join(parts)) == parts
  {
    if |parts| == 1 {
      SplitPlain(parts[0]);
    } else {
      JoinThenSplit(parts[1..]);
      SplitFirst(parts[0], Join(parts[1..]));
    }
  }

  lemma {:induction false} SplitPlain(s: string)
    requires '/' !in s
    ensures Split(s) == [s]
  {
    if s != "" {
      SplitPlain(s[1..]);
      assert s == [s[0]] + s[1..];
    }
  }

  lemma {:induction false} SplitFirst(s: string, t: string)
    requires '/' !in s
    ensures Split(s + "/" + t) == [s] + Split(t)
  {
    if s == "" {
      assert (s + "/" + t)[1..] == t;
    } else {
      assert (s + "/" + t)[1..] == s[1..] + "/" + t;
      SplitFirst(s[1..], t);
      var whole, rest := s + "/" + t, Split(s[1..] + "/" + t);
      assert rest[0] == s[1..] && rest[1..] == Split(t);
      assert s == [s[0]] + s[1..];
      assert Split(whole) == [[s[0]] + rest[0]] + rest[1..];
    }
  }

  lemma {:induction false} SplitThenJoin(s: string)
    ensures Join(Split(s)) == s
    ensures forall i :: 0 <= i < |Split(s)| ==> '/' !in Split(s)[i]
  {
    if s != "" {
      SplitThenJoin(s[1..]);
      var rest := Split(s[1..]);
      if s[0] == '/' {
        assert ([""] + rest)[1..] == rest;
      } else {
        var parts := [[s[0]] + rest[0]] + rest[1..];
        assert parts[1..] == rest[1..];
      }
    }
  }

  lemma {:induction false} EncodeAllThenDecodeAll(path: Path)
    ensures DecodeAll(EncodeAll(path)) == Some(path)
    ensures forall i :: 0 <= i < |path| ==> '/' !in EncodeAll(path)[i]
  {
    if path != [] {
      EncodeThenDecode(path[0]);
      EncodeAllThenDecodeAll(path[1..]);
      assert EncodeAll(path)[1..] == EncodeAll(path[1..]);
      assert path == [path[0]] + path[1..];
    }
  }

  lemma {:induction false} DecodeAllThenEncodeAll(raws: seq<string>)
    requires DecodeAll(raws).Some? && forall i :: 0 <= i < |raws| ==> '/' !in raws[i]
    ensures EncodeAll(DecodeAll(raws).value) == raws
  {
    if raws != [] {
      DecodeThenEncode(raws[0]);
      DecodeAllThenEncodeAll(raws[1..]);
      assert DecodeAll(raws).value[1..] == DecodeAll(raws[1..]).value;
    }
  }

  /** Parsing a printed path returns the path, for every nonempty path. */
  lemma ParsePrinted(path: Path)
    requires path != []
    ensures Parse(Print(path)) == Some(path)
  {
    EncodeAllThenDecodeAll(path);
    JoinThenSplit(EncodeAll(path));
    assert Print(path)[1..] == Join(EncodeAll(path));
  }

  /**
   Printing any parsed pointer returns its own text: every accepted pointer is canonical, so
   the two "pointer is not canonical" refusals of the callers can never happen.
   */
  lemma PrintParsed(pointer: string)
    requires Parse(pointer).Some?
    ensures Print(Parse(pointer).value) == pointer
  {
    SplitThenJoin(pointer[1..]);
    DecodeAllThenEncodeAll(Split(pointer[1..]));
  }

  /** Different paths have different pointers. */
  lemma PrintInjective(p: Path, q: Path)
    requires p != [] && q != [] && Print(p) == Print(q)
    ensures p == q
  {
    ParsePrinted(p);
    ParsePrinted(q);
  }
}
