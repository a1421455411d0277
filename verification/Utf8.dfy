/** Code points and their UTF-8 bytes, after section 3 of RFC 3629. Bit masks on bytes are written
    as comparisons and remainders. */
module Utf8 {

  type Byte = b: int | 0 <= b < 0x100

  type CodePoint = c: int | 0 <= c < 0xD800 || 0xE000 <= c < 0x110000

  /** How many bytes a code point takes. */
  function Length(c: CodePoint): (n: nat)
    ensures 1 <= n <= 4
  {
    if c < 0x80 then 1 else if c < 0x800 then 2 else if c < 0x10000 then 3 else 4
  }

  /** A first byte with the leading bits of a code point, and a later one with the next six bits. */
  function Lead(mark: Byte, bits: int): Byte
    requires 0 <= bits && mark + bits < 0x100
  {
    mark + bits
  }

  function Tail(bits: int): Byte
  {
    0x80 + bits % 0x40
  }

  function Encode(c: CodePoint): (s: seq<Byte>)
    ensures |s| == Length(c)
  {
    if c < 0x80 then [Lead(0, c)]
    else if c < 0x800 then [Lead(0xC0, c / 0x40), Tail(c)]
    else if c < 0x10000 then [Lead(0xE0, c / 0x1000), Tail(c / 0x40), Tail(c)]
    else [Lead(0xF0, c / 0x40000), Tail(c / 0x1000), Tail(c / 0x40), Tail(c)]
  }

  function EncodeAll(cs: seq<CodePoint>): seq<Byte>
  {
    if cs == [] then [] else Encode(cs[0]) + EncodeAll(cs[1..])
  }

  lemma {:induction false} EncodeAppend(a: seq<CodePoint>, b: seq<CodePoint>)
    ensures EncodeAll(a + b) == EncodeAll(a) + EncodeAll(b)
  {
    if a == [] {
      assert a + b == b;
    } else {
      assert (a + b)[1..] == a[1..] + b;
      EncodeAppend(a[1..], b);
    }
  }

  lemma EncodeOne(c: CodePoint)
    ensures EncodeAll([c]) == Encode(c)
  {
    assert EncodeAll([c]) == Encode(c) + EncodeAll([]);
  }

  /** The width of the character that a byte begins; 0 if it cannot begin one. */
  function Width(b: Byte): (w: nat)
    ensures w <= 4
  {
    if b < 0x80 then 1
    else if 0xC0 <= b < 0xE0 then 2
    else if 0xE0 <= b < 0xF0 then 3
    else if 0xF0 <= b < 0xF8 then 4
    else 0
  }

  lemma WidthIsLength(c: CodePoint)
    ensures Width(Encode(c)[0]) == Length(c)
  {
  }

  /** The bytes from `i` on begin with the code point `c`. */
  predicate At(s: seq<Byte>, i: nat, c: CodePoint)
  {
    i + Length(c) <= |s| && s[i..i + Length(c)] == Encode(c)
  }

  /** Where the code point number `k` begins. */
  function Offset(cs: seq<CodePoint>, k: nat): nat
    requires k <= |cs|
  {
    |EncodeAll(cs[..k])|
  }

  lemma Middle<T>(a: seq<T>, x: seq<T>, b: seq<T>)
    ensures (a + (x + b))[|a|..|a| + |x|] == x
  {
  }

  lemma AtOffset(cs: seq<CodePoint>, k: nat)
    requires k < |cs|
    ensures At(EncodeAll(cs), Offset(cs, k), cs[k]) && Offset(cs, k + 1) == Offset(cs, k) + Length(cs[k])
    ensures Offset(cs, k) < |EncodeAll(cs)|
  {
    hide Encode, EncodeAll;
    assert cs == cs[..k] + ([cs[k]] + cs[k + 1..]);
    EncodeAppend(cs[..k], [cs[k]] + cs[k + 1..]);
    EncodeAppend([cs[k]], cs[k + 1..]);
    EncodeOne(cs[k]);
    Middle(EncodeAll(cs[..k]), Encode(cs[k]), EncodeAll(cs[k + 1..]));
    assert cs[..k + 1] == cs[..k] + [cs[k]];
    EncodeAppend(cs[..k], [cs[k]]);
  }

  lemma OffsetEnd(cs: seq<CodePoint>, k: nat)
    requires k <= |cs|
    ensures Offset(cs, k) <= |EncodeAll(cs)| && (Offset(cs, k) == |EncodeAll(cs)| <==> k == |cs|)
    ensures Offset(cs, 0) == 0
    ensures k > 0 ==> Offset(cs, k) > 0
    ensures k < |cs| && cs[k] < 0x80 ==> (Offset(cs, k) == |EncodeAll(cs)| - 1 <==> k == |cs| - 1)
  {
    assert cs == cs[..k] + cs[k..];
    EncodeAppend(cs[..k], cs[k..]);
    if k < |cs| {
      assert cs[k..] == [cs[k]] + cs[k + 1..];
      EncodeAppend([cs[k]], cs[k + 1..]);
      EncodeOne(cs[k]);
    }
    assert cs[..0] == [];
  }

  // ---------------------------------------------------------------- tests on the bytes at a place

  /** All bytes of the character at `i` are there. */
  predicate Whole(b: seq<Byte>, i: nat)
  {
    i < |b| && Width(b[i]) > 0 && i + Width(b[i]) <= |b|
  }

  predicate IsPrintable(b: seq<Byte>, i: nat)
    requires Whole(b, i)
  {
    || b[i] == 0x0A
    || 0x20 <= b[i] <= 0x7E
    || (b[i] == 0xC2 && b[i + 1] >= 0xA0)
    || (b[i] > 0xC2 && b[i] < 0xED)
    || (b[i] == 0xED && b[i + 1] < 0xA0)
    || b[i] == 0xEE
    || (b[i] == 0xEF && !(b[i + 1] == 0xBB && b[i + 2] == 0xBF) && !(b[i + 1] == 0xBF && (b[i + 2] == 0xBE || b[i + 2] == 0xBF)))
  }

  predicate IsBreak(b: seq<Byte>, i: nat)
    requires Whole(b, i)
  {
    || b[i] == 0x0D
    || b[i] == 0x0A
    || (b[i] == 0xC2 && b[i + 1] == 0x85)
    || (b[i] == 0xE2 && b[i + 1] == 0x80 && b[i + 2] == 0xA8)
    || (b[i] == 0xE2 && b[i + 1] == 0x80 && b[i + 2] == 0xA9)
  }

  predicate IsSpace(b: seq<Byte>, i: nat)
    requires i < |b|
  {
    b[i] == 0x20
  }

  predicate IsAscii(b: seq<Byte>, i: nat)
    requires i < |b|
  {
    b[i] <= 0x7F
  }

  /** Whether the whole text begins with a byte order mark; `i` plays no role. */
  predicate IsBom(b: seq<Byte>, i: nat)
    requires Whole(b, 0)
  {
    b[0] == 0xEF && b[1] == 0xBB && b[2] == 0xBF
  }

  /** The same, of code points. */
  predicate Printable(c: CodePoint)
  {
    c == 0x0A || 0x20 <= c <= 0x7E || 0xA0 <= c < 0xD800 || (0xE000 <= c < 0xFFFE && c != 0xFEFF)
  }

  predicate Break(c: CodePoint)
  {
    c == 0x0A || c == 0x0D || c == 0x85 || c == 0x2028 || c == 0x2029
  }

  lemma BytesOf(b: seq<Byte>, i: nat, c: CodePoint)
    requires At(b, i, c)
    ensures Whole(b, i) && Width(b[i]) == Length(c)
    ensures forall k {:trigger Encode(c)[k]} :: 0 <= k < Length(c) ==> b[i + k] == Encode(c)[k]
  {
    assert forall k {:trigger b[i..i + Length(c)][k]} :: 0 <= k < Length(c) ==> b[i + k] == b[i..i + Length(c)][k];
    WidthIsLength(c);
  }

  /** What the tests on bytes mean for the code point. */
  lemma TestsAgree(b: seq<Byte>, i: nat, c: CodePoint)
    requires At(b, i, c)
    ensures Whole(b, i) && (IsSpace(b, i) <==> c == 0x20) && (IsAscii(b, i) <==> c < 0x80)
    ensures b[i] < 0x80 ==> b[i] == c
    ensures c < 0x80 ==> b[i] == c
  {
    BytesOf(b, i, c);
    assert b[i + 0] == Encode(c)[0];
  }

  lemma PrintableAgrees(b: seq<Byte>, i: nat, c: CodePoint)
    requires At(b, i, c)
    ensures Whole(b, i) && (IsPrintable(b, i) <==> Printable(c))
  {
    BytesOf(b, i, c);
    assert b[i + 0] == Encode(c)[0];
    assert Length(c) > 1 ==> b[i + 1] == Encode(c)[1];
    assert Length(c) > 2 ==> b[i + 2] == Encode(c)[2];
  }

  lemma BreakAgrees(b: seq<Byte>, i: nat, c: CodePoint)
    requires At(b, i, c)
    ensures Whole(b, i) && (IsBreak(b, i) <==> Break(c))
  {
    BytesOf(b, i, c);
    assert b[i + 0] == Encode(c)[0];
    assert Length(c) > 1 ==> b[i + 1] == Encode(c)[1];
    assert Length(c) > 2 ==> b[i + 2] == Encode(c)[2];
  }

  /** The bits of a first byte that belong to the code point. */
  function LeadBits(b: Byte): int
  {
    if b < 0x80 then b else if b < 0xE0 then b % 0x20 else if b < 0xF0 then b % 0x10 else b % 0x08
  }

  /** Reads the code point at `i`. */
  method DecodeAt(b: seq<Byte>, i: nat, ghost c: CodePoint) returns (w: nat, v: int)
    requires At(b, i, c)
    ensures w == Length(c) && v == c
  {
    hide Encode, Bits, LeadBits;
    BytesOf(b, i, c);
    FirstBits(c);
    assert b[i + 0] == Encode(c)[0];
    w, v := Width(b[i]), LeadBits(b[i]);
    var k := 1;
    while k < w
      invariant 1 <= k <= w && v == Bits(c, w - k)
    {
      assert b[i + k] == Encode(c)[k];
      NextBits(c, k);
      v := v * 0x40 + b[i + k] % 0x40;
      k := k + 1;
    }
  }

  lemma FirstBits(c: CodePoint)
    ensures LeadBits(Encode(c)[0]) == Bits(c, Length(c) - 1) && Bits(c, 0) == c
  {
  }

  lemma NextBits(c: CodePoint, k: nat)
    requires 1 <= k < Length(c)
    ensures Bits(c, Length(c) - k) * 0x40 + Encode(c)[k] % 0x40 == Bits(c, Length(c) - k - 1)
  {
    hide Length;
  }

  /** A code point without its last `n` groups of six bits. */
  function Bits(c: CodePoint, n: int): int
  {
    if n <= 0 then c else if n == 1 then c / 0x40 else if n == 2 then c / 0x1000 else c / 0x40000
  }
}
