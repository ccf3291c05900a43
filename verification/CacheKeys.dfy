/** The Redis keys of the product listing, as the strings that are printed. */
module CacheKeys {

  const UUID_BOUND: nat := 0x1_0000_0000_0000_0000_0000_0000_0000_0000
  type Uuid = u: nat | u < UUID_BOUND

  function Digit(d: nat): char
    requires d < 16
  {
    "0123456789abcdef"[d]
  }

  /** Decimal digits of a natural number. */
  function DecimalNat(n: nat): (s: string)
    ensures 0 < |s|
  {
    if n < 10 then [Digit(n)] else DecimalNat(n / 10) + [Digit(n % 10)]
  }

  /** What %d prints. */
  function Decimal(n: int): string {
    if n < 0 then "-" + DecimalNat(-n) else DecimalNat(n)
  }

  /** `len` lower-case hexadecimal digits. */
  function Hex(u: nat, len: nat): (s: string)
    ensures |s| == len
  {
    if len == 0 then "" else Hex(u / 16, len - 1) + [Digit(u % 16)]
  }

  /** The text form of section 4 of RFC 9562: 8-4-4-4-12 hexadecimal digits. */
  function UuidText(u: Uuid): (s: string)
    ensures |s| == 36
  {
    var h := Hex(u, 32);
    h[..8] + "-" + h[8..12] + "-" + h[12..16] + "-" + h[16..20] + "-" + h[20..]
  }

  function ListKey(sellerId: int, pageToken: Uuid, pageSize: int, status: string): string {
    "product:" + (Decimal(sellerId) + ":" + (UuidText(pageToken) + ":" + (Decimal(pageSize) + ":" + status)))
  }

  function SetKey(sellerId: int): string {
    "product:" + Decimal(sellerId)
  }

  // ------------------------------------------------------------- injectivity

  lemma DigitInjective(d: nat, e: nat)
    requires d < 16 && e < 16 && Digit(d) == Digit(e)
    ensures d == e
  {
  }

  lemma {:induction false} DecimalNatChars(n: nat)
    ensures ':' !in DecimalNat(n) && '-' !in DecimalNat(n)
  {
    if n >= 10 {
      DecimalNatChars(n / 10);
    }
  }

  lemma DecimalChars(n: int)
    ensures ':' !in Decimal(n)
  {
    DecimalNatChars(if n < 0 then -n else n);
  }

  lemma {:induction false} DecimalNatInjective(m: nat, n: nat)
    requires DecimalNat(m) == DecimalNat(n)
    ensures m == n
    decreases m
  {
    if m < 10 && n < 10 {
      DigitInjective(m, n);
    } else if m >= 10 && n >= 10 {
      var a, b := DecimalNat(m / 10), DecimalNat(n / 10);
      assert DecimalNat(m)[..|a|] == a && DecimalNat(n)[..|b|] == b;
      assert DecimalNat(m)[|a|] == Digit(m % 10) && DecimalNat(n)[|b|] == Digit(n % 10);
      DigitInjective(m % 10, n % 10);
      DecimalNatInjective(m / 10, n / 10);
    }
  }

  lemma SameSign(m: int, n: int)
    requires Decimal(m) == Decimal(n)
    ensures m < 0 <==> n < 0
  {
    DecimalNatChars(if m < 0 then -m else m);
    DecimalNatChars(if n < 0 then -n else n);
    assert m < 0 ==> Decimal(m)[0] == '-';
    assert n < 0 ==> Decimal(n)[0] == '-';
  }

  /** Signed decimal printing is injective. */
  lemma DecimalInjective(m: int, n: int)
    requires Decimal(m) == Decimal(n)
    ensures m == n
  {
    SameSign(m, n);
    if m < 0 {
      assert Decimal(m)[1..] == DecimalNat(-m) && Decimal(n)[1..] == DecimalNat(-n);
      DecimalNatInjective(-m, -n);
    } else {
      DecimalNatInjective(m, n);
    }
  }

  ghost function Pow16(len: nat): nat {
    if len == 0 then 1 else 16 * Pow16(len - 1)
  }

  lemma {:induction false} HexInjective(u: nat, v: nat, len: nat)
    requires u < Pow16(len) && v < Pow16(len)
    requires Hex(u, len) == Hex(v, len)
    ensures u == v
    decreases len
  {
    if len > 0 {
      assert Hex(u, len)[..len - 1] == Hex(u / 16, len - 1) && Hex(v, len)[..len - 1] == Hex(v / 16, len - 1);
      assert Hex(u, len)[len - 1] == Digit(u % 16) && Hex(v, len)[len - 1] == Digit(v % 16);
      DigitInjective(u % 16, v % 16);
      HexInjective(u / 16, v / 16, len - 1);
    }
  }

  lemma {:induction false} HexChars(u: nat, len: nat)
    ensures ':' !in Hex(u, len)
  {
    if len > 0 {
      HexChars(u / 16, len - 1);
    }
  }

  lemma UuidBound()
    ensures Pow16(32) == UUID_BOUND
  {
    assert Pow16(8) == 0x1_0000_0000;
    assert Pow16(16) == 0x1_0000_0000_0000_0000;
    assert Pow16(24) == 0x1_0000_0000_0000_0000_0000_0000;
  }

  lemma UuidParts(u: Uuid)
    ensures var h, s := Hex(u, 32), UuidText(u);
            && s[..8] == h[..8] && s[9..13] == h[8..12] && s[14..18] == h[12..16]
            && s[19..23] == h[16..20] && s[24..] == h[20..]
  {
  }

  lemma UuidTextInjective(u: Uuid, v: Uuid)
    requires UuidText(u) == UuidText(v)
    ensures u == v
  {
    var g, h := Hex(u, 32), Hex(v, 32);
    var s, t := UuidText(u), UuidText(v);
    UuidParts(u);
    UuidParts(v);
    assert g == g[..8] + g[8..12] + g[12..16] + g[16..20] + g[20..];
    assert h == h[..8] + h[8..12] + h[12..16] + h[16..20] + h[20..];
    UuidBound();
    HexInjective(u, v, 32);
  }

  lemma UuidTextChars(u: Uuid)
    ensures ':' !in UuidText(u)
  {
    HexChars(u, 32);
  }

  /** Fields without a colon can be read back from a colon-separated print. */
  lemma FirstField(a: string, x: string, b: string, y: string)
    requires ':' !in a && ':' !in b
    requires a + ":" + x == b + ":" + y
    ensures a == b && x == y
  {
    var s := a + ":" + x;
    assert s[|a|] == ':' && s[|b|] == ':';
    assert forall i :: 0 <= i < |a| ==> s[i] == a[i] && s[i] in a;
    assert forall i :: 0 <= i < |b| ==> s[i] == b[i] && s[i] in b;
    assert a == s[..|a|] && b == s[..|b|];
    assert x == s[|a| + 1..] && y == s[|b| + 1..];
  }

  /** Two listing keys are equal only for the same seller, token, size and status. */
  lemma ListKeyInjective(s: int, t: Uuid, n: int, status: string, s': int, t': Uuid, n': int, status': string)
    requires ListKey(s, t, n, status) == ListKey(s', t', n', status')
    ensures s == s' && t == t' && n == n' && status == status'
  {
    var size, size' := Decimal(n) + ":" + status, Decimal(n') + ":" + status';
    var token, token' := UuidText(t) + ":" + size, UuidText(t') + ":" + size';
    var seller, seller' := Decimal(s) + ":" + token, Decimal(s') + ":" + token';
    assert seller == ListKey(s, t, n, status)[8..] && seller' == ListKey(s', t', n', status')[8..];
    DecimalChars(s);
    DecimalChars(s');
    FirstField(Decimal(s), token, Decimal(s'), token');
    DecimalInjective(s, s');
    UuidTextChars(t);
    UuidTextChars(t');
    FirstField(UuidText(t), size, UuidText(t'), size');
    UuidTextInjective(t, t');
    DecimalChars(n);
    DecimalChars(n');
    FirstField(Decimal(n), status, Decimal(n'), status');
    DecimalInjective(n, n');
  }

  lemma SetKeyInjective(s: int, s': int)
    requires SetKey(s) == SetKey(s')
    ensures s == s'
  {
    assert Decimal(s) == SetKey(s)[8..] && Decimal(s') == SetKey(s')[8..];
    DecimalInjective(s, s');
  }

  /** No listing key is the key of a seller's key set. */
  lemma ListKeyIsNoSetKey(s: int, t: Uuid, n: int, status: string, s': int)
    ensures ListKey(s, t, n, status) != SetKey(s')
  {
    DecimalChars(s');
    assert SetKey(s')[8..] == Decimal(s');
    var tail := ListKey(s, t, n, status)[8..];
    assert tail[|Decimal(s)|] == ':';
    assert ':' in tail;
  }
}
