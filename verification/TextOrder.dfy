/**
  Two ways the store's code orders text: JavaScript's `<` compares UTF-16 code
  units, SQLite's BINARY collation compares UTF-8 bytes. A `char` here is a
  Unicode scalar value.
 */
module TextOrder {
  import opened Sorting

  /** Lexicographic comparison; a proper prefix comes first. */
  predicate UnitsLess(a: seq<int>, b: seq<int>) {
    b != [] && (a == [] || a[0] < b[0] || (a[0] == b[0] && UnitsLess(a[1..], b[1..])))
  }

  function Utf16(c: char): (units: seq<int>)
    ensures units != []
  {
    var p := c as int;
    if p < 0x10000 then [p] else [0xD800 + (p - 0x10000) / 0x400, 0xDC00 + (p - 0x10000) % 0x400]
  }

  /** How many continuation bytes follow the lead byte. */
  function Width(c: char): nat {
    var p := c as int;
    if p < 0x80 then 0 else if p < 0x800 then 1 else if p < 0x10000 then 2 else 3
  }

  function Lead(width: nat): int {
    if width == 0 then 0 else if width == 1 then 0xC0 else if width == 2 then 0xE0 else 0xF0
  }

  /** A lead byte on top of the high bits, then `n` continuation bytes of six bits each. */
  function Spelled(lead: int, p: int, n: nat): (bytes: seq<int>)
    requires p >= 0
    ensures |bytes| == n + 1
  {
    if n == 0 then [lead + p] else Spelled(lead, p / 64, n - 1) + [0x80 + p % 64]
  }

  function Utf8(c: char): (bytes: seq<int>)
    ensures bytes != []
  {
    Spelled(Lead(Width(c)), c as int, Width(c))
  }

  function Encode(enc: char -> seq<int>, s: string): seq<int> {
    if s == "" then [] else enc(s[0]) + Encode(enc, s[1..])
  }

  /** `a < b` in JavaScript. */
  predicate JsLess(a: string, b: string) {
    UnitsLess(Encode(Utf16, a), Encode(Utf16, b))
  }

  /** `a < b` in SQLite. */
  predicate SqlLess(a: string, b: string) {
    UnitsLess(Encode(Utf8, a), Encode(Utf8, b))
  }

  // ---------- comparing units ----------

  lemma {:induction false} UnitsIrreflexive(a: seq<int>)
    ensures !UnitsLess(a, a)
  {
    if a != [] {
      UnitsIrreflexive(a[1..]);
    }
  }

  lemma {:induction false} UnitsTransitive(a: seq<int>, b: seq<int>, c: seq<int>)
    requires UnitsLess(a, b) && UnitsLess(b, c)
    ensures UnitsLess(a, c)
  {
    if a != [] && a[0] == b[0] == c[0] {
      UnitsTransitive(a[1..], b[1..], c[1..]);
    }
  }

  lemma {:induction false} UnitsTotal(a: seq<int>, b: seq<int>)
    ensures a == b || UnitsLess(a, b) || UnitsLess(b, a)
  {
    if a != [] && b != [] && a[0] == b[0] {
      UnitsTotal(a[1..], b[1..]);
      assert a == [a[0]] + a[1..] && b == [b[0]] + b[1..];
    }
  }

  lemma {:induction false} CommonPrefix(p: seq<int>, x: seq<int>, y: seq<int>)
    ensures UnitsLess(p + x, p + y) == UnitsLess(x, y)
  {
    if p == [] {
      assert p + x == x && p + y == y;
    } else {
      CommonPrefix(p[1..], x, y);
      assert (p + x)[1..] == p[1..] + x && (p + y)[1..] == p[1..] + y;
    }
  }

  /** Neither continues the other. */
  predicate Fork(p: seq<int>, q: seq<int>) {
    p != [] && q != [] && (p[0] != q[0] || Fork(p[1..], q[1..]))
  }

  lemma {:induction false} ForkDecides(p: seq<int>, q: seq<int>, x: seq<int>, y: seq<int>)
    requires Fork(p, q)
    ensures UnitsLess(p + x, q + y) == UnitsLess(p, q)
    ensures UnitsLess(q, p) == !UnitsLess(p, q)
  {
    if p[0] == q[0] {
      ForkDecides(p[1..], q[1..], x, y);
      assert (p + x)[1..] == p[1..] + x && (q + y)[1..] == q[1..] + y;
    }
  }

  // ---------- comparing text character by character ----------

  predicate CharsLess(enc: char -> seq<int>, a: string, b: string) {
    b != "" && (a == "" || if a[0] == b[0] then CharsLess(enc, a[1..], b[1..]) else UnitsLess(enc(a[0]), enc(b[0])))
  }

  /** No character's encoding continues another's. */
  ghost predicate PrefixFree(enc: char -> seq<int>) {
    && (forall c :: enc(c) != [])
    && (forall c, d | c != d :: Fork(enc(c), enc(d)))
  }

  /** Comparing encodings is comparing at the first character that differs. */
  lemma {:induction false} LessByChars(enc: char -> seq<int>, a: string, b: string)
    requires PrefixFree(enc)
    ensures UnitsLess(Encode(enc, a), Encode(enc, b)) == CharsLess(enc, a, b)
    ensures a != b ==> Encode(enc, a) != Encode(enc, b)
  {
    if a == "" || b == "" {
    } else if a[0] == b[0] {
      LessByChars(enc, a[1..], b[1..]);
      CommonPrefix(enc(a[0]), Encode(enc, a[1..]), Encode(enc, b[1..]));
      assert a == [a[0]] + a[1..] && b == [b[0]] + b[1..];
      assert Encode(enc, a)[|enc(a[0])|..] == Encode(enc, a[1..]);
      assert Encode(enc, b)[|enc(b[0])|..] == Encode(enc, b[1..]);
    } else {
      ForkDecides(enc(a[0]), enc(b[0]), Encode(enc, a[1..]), Encode(enc, b[1..]));
      ForkDecides(enc(b[0]), enc(a[0]), Encode(enc, b[1..]), Encode(enc, a[1..]));
      UnitsIrreflexive(Encode(enc, a));
    }
  }

  lemma Utf16Order(c: char, d: char)
    requires c != d
    ensures Fork(Utf16(c), Utf16(d))
    ensures UnitsLess(Utf16(c), Utf16(d)) <==> (c < d) != InvertedChars(c, d)
  {
    var p, q := c as int, d as int;
    if p >= 0x10000 && q >= 0x10000 {
      var x, y := p - 0x10000, q - 0x10000;
      assert x == 0x400 * (x / 0x400) + x % 0x400 && y == 0x400 * (y / 0x400) + y % 0x400;
      assert Fork(Utf16(c)[1..], Utf16(d)[1..]) <==> x % 0x400 != y % 0x400;
      assert UnitsLess(Utf16(c)[1..], Utf16(d)[1..]) <==> x % 0x400 < y % 0x400;
    }
  }

  /** One beyond the basic plane, the other between U+E000 and U+FFFF. */
  predicate InvertedChars(c: char, d: char) {
    (c as int >= 0x10000 && 0xE000 <= d as int < 0x10000) || (d as int >= 0x10000 && 0xE000 <= c as int < 0x10000)
  }

  lemma PairOrder(a: int, x: seq<int>, b: int, y: seq<int>)
    ensures UnitsLess([a] + x, [b] + y) <==> a < b || (a == b && UnitsLess(x, y))
    ensures Fork([a] + x, [b] + y) <==> a != b || Fork(x, y)
  {
    assert ([a] + x)[1..] == x && ([b] + y)[1..] == y;
  }

  lemma Append(x: seq<int>, a: int, y: seq<int>, b: int)
    requires |x| == |y|
    ensures UnitsLess(x + [a], y + [b]) <==> UnitsLess(x, y) || (x == y && a < b)
    ensures Fork(x + [a], y + [b]) <==> x != y || a != b
  {
    if x == [] {
      assert x + [a] == [a] + [] && y + [b] == [b] + [];
      PairOrder(a, [], b, []);
    } else {
      assert x + [a] == [x[0]] + (x[1..] + [a]) && y + [b] == [y[0]] + (y[1..] + [b]);
      assert x == [x[0]] + x[1..] && y == [y[0]] + y[1..];
      PairOrder(x[0], x[1..] + [a], y[0], y[1..] + [b]);
      PairOrder(x[0], x[1..], y[0], y[1..]);
      Append(x[1..], a, y[1..], b);
    }
  }

  /** Lead byte and continuation bytes compare as the numbers they spell. */
  lemma {:induction false} SpelledOrder(lead: int, p: int, q: int, n: nat)
    requires p >= 0 && q >= 0
    ensures |Spelled(lead, p, n)| == |Spelled(lead, q, n)| == n + 1
    ensures p == q <==> Spelled(lead, p, n) == Spelled(lead, q, n)
    ensures UnitsLess(Spelled(lead, p, n), Spelled(lead, q, n)) <==> p < q
    ensures Fork(Spelled(lead, p, n), Spelled(lead, q, n)) <==> p != q
  {
    if n > 0 {
      SpelledOrder(lead, p / 64, q / 64, n - 1);
      Append(Spelled(lead, p / 64, n - 1), 0x80 + p % 64, Spelled(lead, q / 64, n - 1), 0x80 + q % 64);
      var x, y := Spelled(lead, p, n), Spelled(lead, q, n);
      assert x[..n] == Spelled(lead, p / 64, n - 1) && y[..n] == Spelled(lead, q / 64, n - 1);
      assert x[n] == 0x80 + p % 64 && y[n] == 0x80 + q % 64;
    }
  }

  /** The lead byte tells the width. */
  lemma FirstByte(c: char)
    ensures Width(c) == 0 ==> 0 <= Utf8(c)[0] < 0x80
    ensures Width(c) == 1 ==> 0xC0 <= Utf8(c)[0] < 0xE0
    ensures Width(c) == 2 ==> 0xE0 <= Utf8(c)[0] < 0xF0
    ensures Width(c) == 3 ==> 0xF0 <= Utf8(c)[0]
  {
    var p, lead := c as int, Lead(Width(c));
    assert Spelled(lead, p / 64, 0) == [lead + p / 64];
    assert Spelled(lead, p / 64, 1)[0] == lead + p / 64 / 64;
    assert Spelled(lead, p / 64 / 64, 1)[0] == lead + p / 64 / 64 / 64;
    assert Width(c) == 3 ==> Spelled(lead, p / 64, 2)[0] == lead + p / 64 / 64 / 64;
  }

  lemma Utf8Order(c: char, d: char)
    requires c != d
    ensures Fork(Utf8(c), Utf8(d))
    ensures UnitsLess(Utf8(c), Utf8(d)) <==> c < d
  {
    if Width(c) == Width(d) {
      SpelledOrder(Lead(Width(c)), c as int, d as int, Width(c));
    } else {
      FirstByte(c);
      FirstByte(d);
    }
  }

  lemma EncodingsPrefixFree()
    ensures PrefixFree(Utf16) && PrefixFree(Utf8)
  {
    forall c: char, d: char | c != d
      ensures Fork(Utf16(c), Utf16(d)) && Fork(Utf8(c), Utf8(d))
    {
      Utf16Order(c, d);
      Utf8Order(c, d);
    }
  }

  /** The first characters that differ are ordered one way by JavaScript and the other way by SQLite. */
  predicate Inverted(a: string, b: string) {
    a != "" && b != "" && if a[0] == b[0] then Inverted(a[1..], b[1..]) else InvertedChars(a[0], b[0])
  }

  lemma {:induction false} CharsAgreeIff(a: string, b: string)
    ensures a != b ==> (CharsLess(Utf16, a, b) == CharsLess(Utf8, a, b) <==> !Inverted(a, b))
    ensures Inverted(a, b) ==> a != b
  {
    if a != "" && b != "" {
      if a[0] == b[0] {
        CharsAgreeIff(a[1..], b[1..]);
        assert a == [a[0]] + a[1..] && b == [b[0]] + b[1..];
      } else {
        Utf16Order(a[0], b[0]);
        Utf8Order(a[0], b[0]);
      }
    }
  }

  /** The two orders agree on a pair of different texts exactly when it is not inverted. */
  lemma OrdersAgreeIff(a: string, b: string)
    requires a != b
    ensures JsLess(a, b) == SqlLess(a, b) <==> !Inverted(a, b)
  {
    EncodingsPrefixFree();
    LessByChars(Utf16, a, b);
    LessByChars(Utf8, a, b);
    CharsAgreeIff(a, b);
  }

  /** Text below U+E000, so all of ASCII, is ordered alike. */
  lemma {:induction false} NeverInverted(a: string, b: string)
    requires forall i | 0 <= i < |a| :: a[i] as int < 0xE000
    requires forall i | 0 <= i < |b| :: b[i] as int < 0xE000
    ensures !Inverted(a, b)
  {
    if a != "" && b != "" && a[0] == b[0] {
      NeverInverted(a[1..], b[1..]);
    }
  }

  lemma JsTotal(a: string, b: string, c: string)
    ensures !JsLess(a, a)
    ensures a == b || JsLess(a, b) || JsLess(b, a)
    ensures JsLess(a, b) && JsLess(b, c) ==> JsLess(a, c)
  {
    EncodingsPrefixFree();
    LessByChars(Utf16, a, b);
    UnitsIrreflexive(Encode(Utf16, a));
    UnitsTotal(Encode(Utf16, a), Encode(Utf16, b));
    if JsLess(a, b) && JsLess(b, c) {
      UnitsTransitive(Encode(Utf16, a), Encode(Utf16, b), Encode(Utf16, c));
    }
  }

  lemma SqlTotal(a: string, b: string, c: string)
    ensures !SqlLess(a, a)
    ensures a == b || SqlLess(a, b) || SqlLess(b, a)
    ensures SqlLess(a, b) && SqlLess(b, c) ==> SqlLess(a, c)
  {
    EncodingsPrefixFree();
    LessByChars(Utf8, a, b);
    UnitsIrreflexive(Encode(Utf8, a));
    UnitsTotal(Encode(Utf8, a), Encode(Utf8, b));
    if SqlLess(a, b) && SqlLess(b, c) {
      UnitsTransitive(Encode(Utf8, a), Encode(Utf8, b), Encode(Utf8, c));
    }
  }

  lemma {:induction false} CharsLessAt(enc: char -> seq<int>, a: string, b: string, k: nat)
    requires k < |a| && k < |b| && a[..k] == b[..k] && a[k] != b[k]
    ensures CharsLess(enc, a, b) == UnitsLess(enc(a[k]), enc(b[k]))
  {
    if k > 0 {
      assert a[0] == a[..k][0] == b[..k][0] == b[0];
      assert a[1..][..k - 1] == a[..k][1..] && b[1..][..k - 1] == b[..k][1..];
      CharsLessAt(enc, a[1..], b[1..], k - 1);
    }
  }

  /**
    At the first character that differs SQLite compares code points; JavaScript
    does the same except between a character beyond U+FFFF and one from U+E000
    to U+FFFF, where the former comes first.
   */
  lemma FirstDifferenceDecides(a: string, b: string, k: nat)
    requires k < |a| && k < |b| && a[..k] == b[..k] && a[k] != b[k]
    ensures SqlLess(a, b) <==> a[k] as int < b[k] as int
    ensures JsLess(a, b) <==>
              if a[k] as int >= 0x10000 && 0xE000 <= b[k] as int <= 0xFFFF then true
              else if b[k] as int >= 0x10000 && 0xE000 <= a[k] as int <= 0xFFFF then false
              else a[k] as int < b[k] as int
  {
    EncodingsPrefixFree();
    LessByChars(Utf16, a, b);
    LessByChars(Utf8, a, b);
    CharsLessAt(Utf16, a, b, k);
    CharsLessAt(Utf8, a, b, k);
    Utf16Order(a[k], b[k]);
    Utf8Order(a[k], b[k]);
  }

  /** A text comes before those that continue it. */
  lemma {:induction false} PrefixComesFirst(a: string, b: string)
    requires |a| < |b| && b[..|a|] == a
    ensures JsLess(a, b) && SqlLess(a, b)
  {
    EncodingsPrefixFree();
    LessByChars(Utf16, a, b);
    LessByChars(Utf8, a, b);
    PrefixIsLess(Utf16, a, b);
    PrefixIsLess(Utf8, a, b);
  }

  lemma {:induction false} PrefixIsLess(enc: char -> seq<int>, a: string, b: string)
    requires |a| < |b| && b[..|a|] == a
    ensures CharsLess(enc, a, b)
  {
    if a != "" {
      assert b[0] == b[..|a|][0] == a[0];
      assert b[1..][..|a| - 1] == b[..|a|][1..] == a[1..];
      PrefixIsLess(enc, a[1..], b[1..]);
    }
  }

  lemma JsOrders(s: seq<string>)
    ensures Orders(JsLess, s)
  {
    forall a, b, c | a in s && b in s && c in s
      ensures !JsLess(a, a) && (a == b || JsLess(a, b) || JsLess(b, a))
          && (JsLess(a, b) && JsLess(b, c) ==> JsLess(a, c))
    {
      JsTotal(a, b, c);
    }
  }
}
