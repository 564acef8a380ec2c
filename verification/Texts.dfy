/**
 Texts and their order. Every canonical key of the system is ASCII text, so comparing
 characters is comparing bytes; property pointers compare by code point in the same way.
 */
module Texts {

  /** Strict lexicographic order. */
  predicate Less(a: string, b: string) {
    if b == "" then false
    else if a == "" then true
    else if a[0] != b[0] then a[0] < b[0]
    else Less(a[1..], b[1..])
  }

  /** The texts differ at a position that both have: neither is a prefix of the other. */
  predicate Apart(a: string, b: string) {
    a != "" && b != "" && (a[0] != b[0] || Apart(a[1..], b[1..]))
  }

  lemma {:induction false} LessTotal(a: string, b: string)
    ensures a == b || Less(a, b) || Less(b, a)
    ensures Less(a, b) ==> a != b && !Less(b, a)
  {
    if a != "" && b != "" && a[0] == b[0] {
      LessTotal(a[1..], b[1..]);
      assert a == [a[0]] + a[1..] && b == [b[0]] + b[1..];
    }
  }

  lemma {:induction false} LessTransitive(a: string, b: string, c: string)
    requires Less(a, b) && Less(b, c)
    ensures Less(a, c)
  {
    if a != "" && a[0] == b[0] && b[0] == c[0] {
      LessTransitive(a[1..], b[1..], c[1..]);
    }
  }

  lemma {:induction false} SharedPrefix(p: string, a: string, b: string)
    ensures Less(p + a, p + b) == Less(a, b)
    ensures Apart(p + a, p + b) == Apart(a, b)
  {
    if p == "" {
      assert p + a == a && p + b == b;
    } else {
      SharedPrefix(p[1..], a, b);
      assert (p + a)[1..] == p[1..] + a && (p + b)[1..] == p[1..] + b;
    }
  }

  /** Once two texts are apart, nothing appended to them changes their order. */
  lemma {:induction false} ApartDecides(a: string, b: string, x: string, y: string)
    requires Apart(a, b)
    ensures Apart(a + x, b + y)
    ensures Less(a + x, b + y) == Less(a, b)
  {
    if a[0] == b[0] {
      ApartDecides(a[1..], b[1..], x, y);
    }
    assert (a + x)[1..] == a[1..] + x && (b + y)[1..] == b[1..] + y;
  }

  lemma {:induction false} ApartOrPrefix(a: string, b: string)
    ensures Apart(a, b) || a <= b || b <= a
  {
    if a != "" && b != "" && a[0] == b[0] {
      ApartOrPrefix(a[1..], b[1..]);
    }
  }
}
