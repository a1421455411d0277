/** The reader: takes bytes from a handler in pieces of any size, checks that they are UTF-8 (section 3
    of RFC 3629) of characters that YAML allows, and delivers them to the scanner, with a NUL at the end. */
module Reader {
  import opened Utf8

  const INPUT_RAW_BUFFER_SIZE: nat := 512
  const INPUT_BUFFER_SIZE: nat := 3 * INPUT_RAW_BUFFER_SIZE

  /** The allowed range of characters. */
  predicate Allowed(c: CodePoint)
  {
    c == 0x09 || c == 0x0A || c == 0x0D || 0x20 <= c <= 0x7E || c == 0x85 || 0xA0 <= c <= 0xD7FF || 0xE000 <= c <= 0xFFFD || 0x10000 <= c
  }

  predicate AllAllowed(cs: seq<CodePoint>)
  {
    forall c <- cs :: Allowed(c)
  }

  // ---------------------------------------------------------------- what is good input

  /** `s` begins in the middle of a character, of which not all bytes are there. */
  predicate Incomplete(s: seq<Byte>)
  {
    s != [] && Width(s[0]) > |s|
  }

  /** `s` is the UTF-8 of allowed characters, as far as it goes; at the end, it goes all the way. */
  ghost predicate Good(s: seq<Byte>, eof: bool)
  {
    exists cs: seq<CodePoint>, t: seq<Byte> :: GoodAs(s, eof, cs, t)
  }

  predicate GoodAs(s: seq<Byte>, eof: bool, cs: seq<CodePoint>, t: seq<Byte>)
  {
    s == EncodeAll(cs) + t && AllAllowed(cs) && (t == [] || (!eof && Incomplete(t)))
  }

  /** The UTF-8 of a character tells how long it is. */
  lemma EncodedWidth(c: CodePoint, s: seq<Byte>)
    requires Encode(c) <= s
    ensures s != [] && Width(s[0]) == Length(c) && s[..Length(c)] == Encode(c)
  {
    WidthIsLength(c);
    assert s[0] == Encode(c)[0];
  }

  /** What begins with neither an allowed character nor part of one is not good. */
  lemma BadHead(s: seq<Byte>, eof: bool)
    requires s != [] && !Incomplete(s)
    requires Width(s[0]) == 0 || forall c: CodePoint :: Allowed(c) ==> Encode(c) != s[..Width(s[0])]
    ensures !Good(s, eof)
  {
    if Good(s, eof) {
      var cs, t :| GoodAs(s, eof, cs, t);
      GoodHead(s, eof, cs, t);
    }
  }

  lemma NothingEncoded(t: seq<Byte>)
    ensures EncodeAll([]) + t == t
  {
  }

  /** What is good and whole begins with an allowed character. */
  lemma GoodHead(s: seq<Byte>, eof: bool, cs: seq<CodePoint>, t: seq<Byte>)
    requires s != [] && !Incomplete(s) && GoodAs(s, eof, cs, t)
    ensures cs != [] && Allowed(cs[0]) && Width(s[0]) == Length(cs[0]) <= |s| && s[..Width(s[0])] == Encode(cs[0])
  {
    NothingEncoded(t);
    if cs != [] {
      assert s == Encode(cs[0]) + (EncodeAll(cs[1..]) + t);
      EncodedWidth(cs[0], s);
      assert cs[0] in cs;
    }
  }

  /** Good characters at the beginning change nothing. */
  lemma {:induction false} GoodAfter(a: seq<CodePoint>, s: seq<Byte>, eof: bool)
    requires AllAllowed(a)
    ensures Good(EncodeAll(a) + s, eof) <==> Good(s, eof)
  {
    if a == [] {
      assert EncodeAll(a) + s == s;
    } else {
      GoodAfter(a[1..], s, eof);
      GoodAfterOne(a[0], EncodeAll(a[1..]) + s, eof);
      assert EncodeAll(a) + s == Encode(a[0]) + (EncodeAll(a[1..]) + s);
    }
  }

  lemma GoodAfterOne(c: CodePoint, s: seq<Byte>, eof: bool)
    requires Allowed(c)
    ensures Good(Encode(c) + s, eof) <==> Good(s, eof)
  {
    if Good(s, eof) {
      var cs, t :| GoodAs(s, eof, cs, t);
      EncodeAppend([c], cs);
      EncodeOne(c);
      assert Encode(c) + s == EncodeAll([c] + cs) + t;
      assert GoodAs(Encode(c) + s, eof, [c] + cs, t);
    }
    if Good(Encode(c) + s, eof) {
      var cs, t :| GoodAs(Encode(c) + s, eof, cs, t);
      GoodTail(c, s, eof, cs, t);
    }
  }

  lemma GoodTail(c: CodePoint, s: seq<Byte>, eof: bool, cs: seq<CodePoint>, t: seq<Byte>)
    requires GoodAs(Encode(c) + s, eof, cs, t)
    ensures Good(s, eof)
  {
    hide Encode, Width;
    var w := Encode(c) + s;
    EncodedWidth(c, w);
    NothingEncoded(t);
    if cs != [] {
      assert w == Encode(cs[0]) + (EncodeAll(cs[1..]) + t);
      EncodedWidth(cs[0], w);
      assert s == w[Length(c)..] == EncodeAll(cs[1..]) + t;
      assert GoodAs(s, eof, cs[1..], t);
    }
  }

  // ---------------------------------------------------------------- good input and UTF-8

  /** `s` is the beginning of UTF-8 of allowed characters, and if it ends there, all of it. */
  ghost predicate BeginsUtf8(s: seq<Byte>, eof: bool)
  {
    exists cs: seq<CodePoint>, more: seq<Byte> :: ContinuesAs(s, eof, cs, more)
  }

  predicate ContinuesAs(s: seq<Byte>, eof: bool, cs: seq<CodePoint>, more: seq<Byte>)
  {
    s + more == EncodeAll(cs) && AllAllowed(cs) && (eof ==> more == [])
  }

  /** `t` is what an allowed character begins with. */
  ghost predicate BeginsChar(t: seq<Byte>)
  {
    exists c: CodePoint :: Allowed(c) && t <= Encode(c)
  }

  /** Input that is the beginning of UTF-8 is good, so what the reader refuses is not UTF-8. What is good
      may still not be, but only because of the bytes at the end of which it waits for more: exactly
      if no allowed character begins so. */
  lemma GoodIsUtf8Iff(s: seq<Byte>, eof: bool)
    ensures BeginsUtf8(s, eof) ==> Good(s, eof)
    ensures forall cs: seq<CodePoint>, t: seq<Byte> :: GoodAs(s, eof, cs, t) ==> (BeginsUtf8(s, eof) <==> t == [] || BeginsChar(t))
    ensures eof ==> (BeginsUtf8(s, eof) <==> Good(s, eof))
  {
    if BeginsUtf8(s, eof) {
      var cs, more :| ContinuesAs(s, eof, cs, more);
      Utf8IsGood(s, eof, cs, more);
    }
    forall cs: seq<CodePoint>, t: seq<Byte> | GoodAs(s, eof, cs, t)
      ensures BeginsUtf8(s, eof) <==> t == [] || BeginsChar(t)
    {
      if t == [] || BeginsChar(t) {
        TailContinues(s, eof, cs, t);
      } else if BeginsUtf8(s, eof) {
        var ds, more :| ContinuesAs(s, eof, ds, more);
        TailBegins(s, eof, cs, t, ds, more);
      }
    }
  }

  lemma {:induction false} Utf8IsGood(s: seq<Byte>, eof: bool, cs: seq<CodePoint>, more: seq<Byte>)
    requires ContinuesAs(s, eof, cs, more)
    ensures Good(s, eof)
    decreases |cs|
  {
    if s == [] || more == [] {
      NothingEncoded(s);
      assert GoodAs(s, eof, if more == [] then cs else [], []) by {
        assert s + [] == s && EncodeAll(cs) + [] == EncodeAll(cs);
      }
    } else {
      var w := s + more;
      assert cs != [];
      assert w == Encode(cs[0]) + EncodeAll(cs[1..]);
      EncodedWidth(cs[0], w);
      assert cs[0] in cs && forall c :: c in cs[1..] ==> c in cs;
      var n := Length(cs[0]);
      if |s| < n {
        NothingEncoded(s);
        assert GoodAs(s, eof, [], s);
      } else {
        assert s[..n] == w[..n] && s[n..] + more == w[n..] == EncodeAll(cs[1..]);
        Utf8IsGood(s[n..], eof, cs[1..], more);
        GoodAfterOne(cs[0], s[n..], eof);
        assert s == Encode(cs[0]) + s[n..];
      }
    }
  }

  lemma TailContinues(s: seq<Byte>, eof: bool, cs: seq<CodePoint>, t: seq<Byte>)
    requires GoodAs(s, eof, cs, t) && (t == [] || BeginsChar(t))
    ensures BeginsUtf8(s, eof)
  {
    hide EncodeAll, Encode;
    if t == [] {
      assert s + [] == s && EncodeAll(cs) + t == EncodeAll(cs);
      assert ContinuesAs(s, eof, cs, []);
    } else {
      var c :| Allowed(c) && t <= Encode(c);
      var more := Encode(c)[|t|..];
      EncodeAppend(cs, [c]);
      EncodeOne(c);
      assert Encode(c) == t + more;
      assert s + more == EncodeAll(cs) + (t + more);
      assert ContinuesAs(s, eof, cs + [c], more);
    }
  }

  lemma TailBegins(s: seq<Byte>, eof: bool, cs: seq<CodePoint>, t: seq<Byte>, ds: seq<CodePoint>, more: seq<Byte>)
    requires GoodAs(s, eof, cs, t) && ContinuesAs(s, eof, ds, more) && t != []
    ensures BeginsChar(t)
  {
    var w := t + more;
    assert s + more == EncodeAll(cs) + w;
    assert EncodeAll(ds) + [] == EncodeAll(ds);
    assert GoodAs(EncodeAll(cs) + w, true, ds, []);
    GoodAfter(cs, w, true);
    var es, u :| GoodAs(w, true, es, u);
    NothingEncoded(u);
    assert es != [] && w == Encode(es[0]) + (EncodeAll(es[1..]) + u);
    EncodedWidth(es[0], w);
    assert es[0] in es && t[0] == w[0];
    assert t == w[..|t|] == Encode(es[0])[..|t|];
  }

  /** Three more bytes, or the end of the input, and it is noticed. */
  lemma NoticedInTime(s: seq<Byte>, more: seq<Byte>, eof: bool)
    requires !BeginsUtf8(s, false) && (|more| >= 3 || eof)
    ensures !Good(s + more, eof)
  {
    if Good(s + more, eof) {
      var cs, t :| GoodAs(s + more, eof, cs, t);
      var n := |more| - |t|;
      assert n >= 0;
      assert s + more[..n] == (s + more)[..|EncodeAll(cs)|] == EncodeAll(cs);
      assert ContinuesAs(s, false, cs, more[..n]);
    }
  }

  /** For a while it is not: this is good input, of which no continuation is UTF-8. */
  lemma WaitsInVain()
    ensures Good([0xE2, 0x41], false) && !BeginsUtf8([0xE2, 0x41], false)
  {
    var s: seq<Byte> := [0xE2, 0x41];
    NothingEncoded(s);
    assert GoodAs(s, false, [], s);
    GoodIsUtf8Iff(s, false);
    forall c: CodePoint
      ensures !(s <= Encode(c))
    {
      assert |Encode(c)| >= 2 ==> Encode(c)[1] >= 0x80 > s[1];
    }
  }

  // ---------------------------------------------------------------- decoding one character

  predicate IsTail(b: Byte)
  {
    0x80 <= b < 0xC0
  }

  /** The number in the first `k` bytes of a character. */
  function Bits(s: seq<Byte>, k: nat): int
    requires k <= |s|
  {
    if k == 0 then 0 else if k == 1 then LeadBits(s[0]) else Bits(s, k - 1) * 0x40 + s[k - 1] % 0x40
  }

  /** A sequence no longer than the number needs, and no surrogate. */
  predicate InRange(w: nat, v: int)
  {
    && (w == 1 || (w == 2 && v >= 0x80) || (w == 3 && v >= 0x800) || (w == 4 && v >= 0x10000))
    && !(0xD800 <= v <= 0xDFFF) && v <= 0x10FFFF
  }

  predicate IsScalar(v: int)
  {
    0 <= v < 0xD800 || 0xE000 <= v < 0x110000
  }

  lemma Decodes2(a: Byte, b: Byte, v: int)
    requires 0xC0 <= a < 0xE0 && IsTail(b) && v == a % 0x20 * 0x40 + b % 0x40
    ensures InRange(2, v) ==> IsScalar(v) && Encode(v) == [a, b]
    ensures forall c: CodePoint :: Encode(c) == [a, b] ==> InRange(2, v) && c == v
  {
    forall c: CodePoint | Encode(c) == [a, b]
      ensures InRange(2, v) && c == v
    {
      assert a == Lead(0xC0, c / 0x40) && b == Tail(c);
    }
  }

  lemma Digits3(x: int, y: int, z: int, v: int)
    requires 0 <= x && 0 <= y < 0x40 && 0 <= z < 0x40 && v == (x * 0x40 + y) * 0x40 + z
    ensures v / 0x1000 == x && v / 0x40 == x * 0x40 + y && v / 0x40 % 0x40 == y && v % 0x40 == z
  {
  }

  lemma Digits4(w: int, x: int, y: int, z: int, v: int)
    requires 0 <= w && 0 <= x < 0x40 && 0 <= y < 0x40 && 0 <= z < 0x40 && v == ((w * 0x40 + x) * 0x40 + y) * 0x40 + z
    ensures v / 0x40000 == w && v / 0x1000 % 0x40 == x && v / 0x40 % 0x40 == y && v % 0x40 == z
  {
    Digits3(w * 0x40 + x, y, z, v);
    assert v / 0x1000 == w * 0x40 + x;
  }

  lemma Number3(c: CodePoint)
    ensures c == (c / 0x1000 * 0x40 + c / 0x40 % 0x40) * 0x40 + c % 0x40
  {
    assert c / 0x40 / 0x40 == c / 0x1000;
  }

  lemma Number4(c: CodePoint)
    ensures c == ((c / 0x40000 * 0x40 + c / 0x1000 % 0x40) * 0x40 + c / 0x40 % 0x40) * 0x40 + c % 0x40
  {
    Number3(c);
    assert c / 0x1000 / 0x40 == c / 0x40000;
  }

  lemma Decodes3(a: Byte, b: Byte, d: Byte, v: int)
    requires 0xE0 <= a < 0xF0 && IsTail(b) && IsTail(d) && v == (a % 0x10 * 0x40 + b % 0x40) * 0x40 + d % 0x40
    ensures InRange(3, v) ==> IsScalar(v) && Encode(v) == [a, b, d]
    ensures forall c: CodePoint :: Encode(c) == [a, b, d] ==> InRange(3, v) && c == v
  {
    Digits3(a % 0x10, b % 0x40, d % 0x40, v);
    assert a == 0xE0 + a % 0x10 && b == 0x80 + b % 0x40 && d == 0x80 + d % 0x40;
    forall c: CodePoint | Encode(c) == [a, b, d]
      ensures InRange(3, v) && c == v
    {
      Encoded3(c, a, b, d);
    }
  }

  lemma Encoded3(c: CodePoint, a: Byte, b: Byte, d: Byte)
    requires Encode(c) == [a, b, d]
    ensures c == (a % 0x10 * 0x40 + b % 0x40) * 0x40 + d % 0x40 && 0x800 <= c < 0x10000
  {
    assert Encode(c)[0] == a == Lead(0xE0, c / 0x1000) && Encode(c)[1] == b == Tail(c / 0x40) && Encode(c)[2] == d == Tail(c);
    Number3(c);
  }

  lemma Decodes4(a: Byte, b: Byte, d: Byte, e: Byte, v: int)
    requires 0xF0 <= a < 0xF8 && IsTail(b) && IsTail(d) && IsTail(e)
    requires v == ((a % 0x08 * 0x40 + b % 0x40) * 0x40 + d % 0x40) * 0x40 + e % 0x40
    ensures InRange(4, v) ==> IsScalar(v) && Encode(v) == [a, b, d, e]
    ensures forall c: CodePoint :: Encode(c) == [a, b, d, e] ==> InRange(4, v) && c == v
  {
    Digits4(a % 0x08, b % 0x40, d % 0x40, e % 0x40, v);
    assert a == 0xF0 + a % 0x08 && b == 0x80 + b % 0x40 && d == 0x80 + d % 0x40 && e == 0x80 + e % 0x40;
    forall c: CodePoint | Encode(c) == [a, b, d, e]
      ensures InRange(4, v) && c == v
    {
      Encoded4(c, a, b, d, e);
    }
  }

  lemma Encoded4(c: CodePoint, a: Byte, b: Byte, d: Byte, e: Byte)
    requires Encode(c) == [a, b, d, e]
    ensures c == ((a % 0x08 * 0x40 + b % 0x40) * 0x40 + d % 0x40) * 0x40 + e % 0x40 && 0x10000 <= c
  {
    hide Length;
    assert Encode(c)[0] == a == Lead(0xF0, c / 0x40000) && Encode(c)[1] == b == Tail(c / 0x1000);
    assert Encode(c)[2] == d == Tail(c / 0x40) && Encode(c)[3] == e == Tail(c);
    Number4(c);
  }

  /** A sequence of bytes with the right marks is the UTF-8 of a character exactly if its number is in range. */
  lemma Decodes(s: seq<Byte>)
    requires s != [] && |s| == Width(s[0]) && forall k :: 1 <= k < |s| ==> IsTail(s[k])
    ensures var v := Bits(s, |s|); InRange(|s|, v) ==> IsScalar(v) && Encode(v) == s
    ensures forall c: CodePoint :: Encode(c) == s ==> InRange(|s|, Bits(s, |s|)) && c == Bits(s, |s|)
  {
    hide Encode;
    var n, v := |s|, Bits(s, |s|);
    assert Bits(s, 1) == LeadBits(s[0]);
    if n == 1 {
      assert s == [s[0]];
      Decodes1(s[0]);
    } else if n == 2 {
      assert s == [s[0], s[1]];
      Decodes2(s[0], s[1], v);
    } else if n == 3 {
      assert Bits(s, 2) == Bits(s, 1) * 0x40 + s[1] % 0x40;
      assert s == [s[0], s[1], s[2]];
      Decodes3(s[0], s[1], s[2], v);
    } else {
      assert Bits(s, 2) == Bits(s, 1) * 0x40 + s[1] % 0x40;
      assert Bits(s, 3) == Bits(s, 2) * 0x40 + s[2] % 0x40;
      assert s == [s[0], s[1], s[2], s[3]];
      Decodes4(s[0], s[1], s[2], s[3], v);
    }
  }

  lemma Decodes1(a: Byte)
    requires a < 0x80
    ensures InRange(1, a) ==> Encode(a) == [a]
    ensures forall c: CodePoint :: Encode(c) == [a] ==> InRange(1, a) && c == a
  {
    forall c: CodePoint | Encode(c) == [a]
      ensures InRange(1, a) && c == a
    {
      assert a == Lead(0, c);
    }
  }

  /** A byte without its mark cannot be in the middle of a character. */
  lemma TailsMarked(c: CodePoint, s: seq<Byte>, k: nat)
    requires Encode(c) == s && 1 <= k < |s|
    ensures IsTail(s[k])
  {
  }

  /** How the attempt to decode the next character may end. */
  datatype Head = Char(c: CodePoint, w: nat) | Short | Invalid

  /** Decodes the character that `s` begins with. */
  method DecodeHead(s: seq<Byte>, eof: bool) returns (r: Head)
    requires s != []
    ensures r.Char? ==> Allowed(r.c) && Encode(r.c) <= s && r.w == Length(r.c)
    ensures r.Short? ==> Incomplete(s) && !eof
    ensures r.Invalid? ==> !Good(s, eof)
  {
    hide Encode, Good, InRange;
    var width := Width(s[0]);
    if width == 0 {
      BadHead(s, eof);
      return Invalid;
    }
    if width > |s| {
      if eof {
        ShortIsBad(s);
        return Invalid;
      }
      return Short;
    }
    var value, marked := DecodeTails(s[..width]);
    if !marked {
      UnmarkedIsBad(s, eof, width);
      return Invalid;
    }
    Decodes(s[..width]);
    if !InRange(width, value) {
      BadHead(s, eof);
      return Invalid;
    }
    if !Allowed(value) {
      BadHead(s, eof);
      return Invalid;
    }
    EncodedWidth(value, s);
    return Char(value, width);
  }

  /** The number in a sequence of bytes, if all of them have their marks. */
  method DecodeTails(s: seq<Byte>) returns (value: int, marked: bool)
    requires s != []
    ensures marked <==> forall k :: 1 <= k < |s| ==> IsTail(s[k])
    ensures marked ==> value == Bits(s, |s|)
  {
    value := LeadBits(s[0]);
    assert Bits(s, 1) == value;
    for k := 1 to |s|
      invariant value == Bits(s, k) && forall j :: 1 <= j < k ==> IsTail(s[j])
    {
      if !IsTail(s[k]) {
        return value, false;
      }
      value := value * 0x40 + s[k] % 0x40;
    }
    marked := true;
  }

  lemma ShortIsBad(s: seq<Byte>)
    requires s != [] && Incomplete(s)
    ensures !Good(s, true)
  {
    forall cs, t | GoodAs(s, true, cs, t)
      ensures false
    {
      assert s == Encode(cs[0]) + (EncodeAll(cs[1..]) + t);
      EncodedWidth(cs[0], s);
    }
  }

  lemma UnmarkedIsBad(s: seq<Byte>, eof: bool, w: nat)
    requires s != [] && 0 < w == Width(s[0]) <= |s| && !(forall k :: 1 <= k < w ==> IsTail(s[..w][k]))
    ensures !Good(s, eof)
  {
    var k :| 1 <= k < w && !IsTail(s[..w][k]);
    forall c: CodePoint | Allowed(c)
      ensures Encode(c) != s[..w]
    {
      if Encode(c) == s[..w] {
        TailsMarked(c, s[..w], k);
      }
    }
    BadHead(s, eof);
  }

  // ---------------------------------------------------------------- the handler

  datatype Status = More | Eof | Failure

  /** The read handler: it hands out the input in pieces of any size, may come back with nothing
      a number of times, and may fail. */
  class Source {
    const input: seq<Byte>
    var pos: nat
    var patience: nat

    constructor (input: seq<Byte>, patience: nat)
      ensures this.input == input && pos == 0 && this.patience == patience
    {
      this.input, pos, this.patience := input, 0, patience;
    }

    /** Reads into `buf[from..]`. */
    method Read(buf: array<Byte>, from: nat) returns (n: nat, status: Status)
      requires pos <= |input| && from <= buf.Length
      modifies this`pos, this`patience, buf
      ensures pos == old(pos) + n <= |input| && from + n <= buf.Length
      ensures buf[..from] == old(buf[..from]) && buf[from..from + n] == input[old(pos)..pos]
      ensures status == Eof ==> pos == |input|
      ensures status == More && n == 0 && from < buf.Length ==> patience < old(patience)
      ensures patience <= old(patience)
    {
      status := *;
      var most: nat := if |input| - pos < buf.Length - from then |input| - pos else buf.Length - from;
      var many: int := *;
      n := if 0 <= many < most then many else most;
      if status == Eof && pos + n < |input| {
        status := Failure;
      }
      if status == More && n == 0 {
        if patience > 0 {
          patience := patience - 1;
        } else {
          status := Failure;
        }
      }
      for k := 0 to n
        invariant buf[..from] == old(buf[..from]) && buf[from..from + k] == input[pos..pos + k]
        modifies buf
      {
        buf[from + k] := input[pos + k];
      }
      pos := pos + n;
    }
  }

  datatype Encoding = AnyEncoding | Utf8Encoding | Utf16LeEncoding | Utf16BeEncoding

  predicate BeginsUtf16(s: seq<Byte>)
  {
    |s| >= 2 && ((s[0] == 0xFF && s[1] == 0xFE) || (s[0] == 0xFE && s[1] == 0xFF))
  }

  /** The length of the byte order mark. */
  function BomLength(s: seq<Byte>): (n: nat)
    ensures n <= |s| && n == if Encode(0xFEFF) <= s then 3 else 0
  {
    if |s| >= 3 && s[0] == 0xEF && s[1] == 0xBB && s[2] == 0xBF then 3 else 0
  }

  lemma {:induction false} EncodeBound(cs: seq<CodePoint>)
    ensures |EncodeAll(cs)| <= 4 * |cs|
  {
    if cs == [] {
    } else {
      EncodeBound(cs[1..]);
    }
  }

  lemma OneMore(chars: seq<CodePoint>, unread: nat, c: CodePoint)
    requires unread <= |chars|
    ensures EncodeAll((chars + [c])[|chars| - unread..]) == EncodeAll(chars[|chars| - unread..]) + Encode(c)
  {
    assert (chars + [c])[|chars| - unread..] == chars[|chars| - unread..] + [c];
    EncodeAppend(chars[|chars| - unread..], [c]);
    EncodeOne(c);
  }

  lemma TakeFirst(cs: seq<CodePoint>, s: seq<Byte>)
    requires cs != [] && s == EncodeAll(cs)
    ensures |s| >= Length(cs[0]) && Width(s[0]) == Length(cs[0]) && s[Length(cs[0])..] == EncodeAll(cs[1..])
  {
    assert Encode(cs[0]) <= s;
    EncodedWidth(cs[0], s);
  }

  class Parser {
    const source: Source
    const rawBuffer: array<Byte>
    const buffer: array<Byte>
    var rawPos: nat
    var rawLen: nat
    var bufferPos: nat
    var bufferLen: nat
    var unread: nat
    var offset: nat
    var eof: bool
    var encoding: Encoding
    /** Ghost: all characters decoded, whether the NUL has been put after them, and the length of the mark. */
    ghost var chars: seq<CodePoint>
    ghost var ended: bool
    ghost var skip: nat

    constructor (source: Source)
      requires source.pos == 0 && !BeginsUtf16(source.input)
      ensures Valid() && chars == [] && !ended && this.source == source && fresh(rawBuffer) && fresh(buffer)
    {
      this.source := source;
      rawBuffer := new Byte[INPUT_RAW_BUFFER_SIZE];
      buffer := new Byte[INPUT_BUFFER_SIZE];
      rawPos, rawLen, bufferPos, bufferLen, unread, offset, eof, encoding := 0, 0, 0, 0, 0, 0, false, AnyEncoding;
      chars, ended, skip := [], false, 0;
    }

    ghost function All(): seq<CodePoint>
      reads `chars, `ended
    {
      if ended then chars + [0] else chars
    }

    /** The raw buffer has the bytes that were read and not decoded. */
    ghost predicate RawOk()
      reads `rawPos, `rawLen, `offset, `eof, source`pos, rawBuffer
    {
      && rawBuffer.Length == INPUT_RAW_BUFFER_SIZE && rawPos <= rawLen <= rawBuffer.Length
      && offset <= source.pos <= |source.input| && rawBuffer[rawPos..rawLen] == source.input[offset..source.pos]
      && (eof ==> source.pos == |source.input|)
    }

    /** The buffer has the characters that the scanner has not taken. */
    ghost predicate BufferOk()
      reads `bufferPos, `bufferLen, `unread, `chars, `ended, buffer
    {
      && buffer.Length == INPUT_BUFFER_SIZE && bufferPos <= bufferLen <= buffer.Length && unread <= |All()|
      && buffer[bufferPos..bufferLen] == EncodeAll(All()[|All()| - unread..])
    }

    /** What was decoded is the input after the mark, so far. */
    ghost predicate DecodedOk()
      reads `encoding, `skip, `offset, `chars
    {
      && encoding == Utf8Encoding && skip == BomLength(source.input) <= offset <= |source.input|
      && source.input[skip..offset] == EncodeAll(chars) && AllAllowed(chars)
    }

    /** Between calls: nothing that could be decoded is left. */
    ghost predicate Settled()
      reads `offset, `eof, source`pos
    {
      && offset <= source.pos <= |source.input|
      && (source.input[offset..source.pos] == [] || (!eof && Incomplete(source.input[offset..source.pos])))
    }

    ghost predicate Valid()
      reads this, source, rawBuffer, buffer
    {
      && RawOk() && BufferOk() && !BeginsUtf16(source.input)
      && if encoding == AnyEncoding then source.pos == 0 && chars == [] && !ended && !eof && unread == 0 && rawLen == 0
         else DecodedOk() && Settled() && (eof <==> ended)
    }

    /** Moves what is left in the raw buffer to its beginning and reads more. */
    method UpdateRawBuffer() returns (ok: bool)
      requires RawOk()
      modifies rawBuffer, source`pos, source`patience, `rawPos, `rawLen, `eof
      ensures RawOk() && source.pos >= old(source.pos) && source.patience <= old(source.patience) && (old(eof) ==> eof)
      ensures ok && !eof && !(old(rawPos) == 0 && old(rawLen) == rawBuffer.Length) ==>
        source.pos > old(source.pos) || source.patience < old(source.patience)
    {
      if rawPos == 0 && rawLen == rawBuffer.Length {
        return true;
      }
      if eof {
        return true;
      }
      MoveRaw();
      var n, status := source.Read(rawBuffer, rawLen);
      ghost var input := source.input;
      assert rawBuffer[..rawLen + n] == rawBuffer[..rawLen] + rawBuffer[rawLen..rawLen + n];
      assert input[offset..source.pos] == input[offset..source.pos - n] + input[source.pos - n..source.pos];
      rawLen := rawLen + n;
      if status == Eof {
        eof := true;
      }
      return status != Failure;
    }

    /** Looks for a byte order mark. */
    method DetermineEncoding() returns (ok: bool)
      requires RawOk() && encoding == AnyEncoding && offset == 0 && BufferOk()
      modifies rawBuffer, source`pos, source`patience, `rawPos, `rawLen, `eof, `encoding, `offset, `skip
      ensures RawOk() && BufferOk() && (!ok ==> encoding == AnyEncoding)
      ensures ok && !BeginsUtf16(source.input) ==> encoding == Utf8Encoding && offset == skip == BomLength(source.input)
      ensures ok && BeginsUtf16(source.input) ==> encoding != Utf8Encoding && encoding != AnyEncoding && offset == 2
    {
      hide BufferOk, Length, EncodeAll, All;
      Distinct();
      while !eof && rawLen - rawPos < 3
        invariant RawOk() && BufferOk() && rawBuffer != buffer && offset == 0 && encoding == AnyEncoding
        decreases |source.input| - source.pos, if eof then 0 else 1, source.patience
      {
        ok := UpdateRawBuffer();
        if !ok {
          return;
        }
      }
      MarkSeen();
      var avail := rawLen - rawPos;
      if avail >= 2 && rawBuffer[rawPos] == 0xFF && rawBuffer[rawPos + 1] == 0xFE {
        encoding := Utf16LeEncoding;
        Consume(2);
      } else if avail >= 2 && rawBuffer[rawPos] == 0xFE && rawBuffer[rawPos + 1] == 0xFF {
        encoding := Utf16BeEncoding;
        Consume(2);
      } else if avail >= 3 && rawBuffer[rawPos] == 0xEF && rawBuffer[rawPos + 1] == 0xBB && rawBuffer[rawPos + 2] == 0xBF {
        encoding, skip := Utf8Encoding, 3;
        Consume(3);
      } else {
        encoding, skip := Utf8Encoding, 0;
      }
      return true;
    }

    /** The first bytes in the raw buffer are those of the input, three of them unless it is shorter. */
    lemma MarkSeen()
      requires RawOk() && offset == 0 && (eof || rawLen - rawPos >= 3)
      ensures rawLen - rawPos == source.pos && (source.pos < 3 ==> source.pos == |source.input|)
      ensures forall k :: 0 <= k < source.pos ==> rawBuffer[rawPos + k] == source.input[k]
    {
      assert source.input[0..source.pos] == rawBuffer[rawPos..rawLen];
      assert forall k :: 0 <= k < source.pos ==> source.input[0..source.pos][k] == rawBuffer[rawPos..rawLen][k];
    }

    method Consume(n: nat)
      requires RawOk() && rawPos + n <= rawLen
      modifies `rawPos, `offset
      ensures RawOk() && rawPos == old(rawPos) + n && offset == old(offset) + n
    {
      assert rawBuffer[rawPos + n..rawLen] == rawBuffer[rawPos..rawLen][n..];
      assert source.input[offset + n..source.pos] == source.input[offset..source.pos][n..];
      rawPos, offset := rawPos + n, offset + n;
    }

    /** Moves the characters not taken to the beginning of the buffer. */
    method Compact()
      requires BufferOk()
      modifies buffer, `bufferPos, `bufferLen
      ensures BufferOk() && bufferPos == 0 && bufferLen <= 4 * unread
    {
      ghost var was := buffer[bufferPos..bufferLen];
      EncodeBound(All()[|All()| - unread..]);
      if bufferPos > 0 && bufferPos < bufferLen {
        CopyDown(buffer, bufferPos, bufferLen - bufferPos);
        bufferLen := bufferLen - bufferPos;
        bufferPos := 0;
      } else if bufferPos == bufferLen {
        bufferLen := 0;
        bufferPos := 0;
      }
      assert buffer[bufferPos..bufferLen] == was;
    }

    /** Puts the UTF-8 of a character into the buffer. */
    method PutChar(c: CodePoint, ghost last: bool)
      requires BufferOk() && bufferPos == 0 && bufferLen + Length(c) <= buffer.Length && !ended && (last ==> c == 0)
      modifies buffer, `bufferLen, `unread, `chars, `ended
      ensures BufferOk() && bufferLen == old(bufferLen) + Length(c) && unread == old(unread) + 1
      ensures ended == last && chars == if last then old(chars) else old(chars) + [c]
    {
      hide Encode, EncodeAll;
      OneMore(chars, unread, c);
      Store(buffer, bufferLen, Encode(c));
      bufferLen := bufferLen + Length(c);
      unread := unread + 1;
      if last {
        ended := true;
      } else {
        chars := chars + [c];
      }
    }

    /** Decodes what is in the raw buffer, but for a character of which not all bytes are there. */
    method DecodeRaw() returns (ok: bool)
      requires RawOk() && BufferOk() && DecodedOk() && bufferPos == 0 && !ended && bufferLen + (rawLen - rawPos) < buffer.Length
      modifies buffer, `rawPos, `offset, `bufferLen, `unread, `chars, `ended
      ensures RawOk() && BufferOk() && DecodedOk() && bufferPos == 0 && !ended && unread >= old(unread) && bufferLen < buffer.Length
      ensures ok ==> Settled()
      ensures !ok ==> !Good(source.input[skip..source.pos], eof)
    {
      hide Good, RawOk, BufferOk, DecodedOk;
      RawFacts();
      BufferFacts();
      while rawPos != rawLen
        invariant RawOk() && BufferOk() && DecodedOk() && bufferPos == 0 && !ended && unread >= old(unread)
        invariant bufferLen + (rawLen - rawPos) < buffer.Length && rawPos <= rawLen <= rawBuffer.Length && rawBuffer != buffer
        invariant offset <= source.pos <= |source.input| && rawBuffer[rawPos..rawLen] == source.input[offset..source.pos]
        decreases rawLen - rawPos
      {
        var r := DecodeHead(rawBuffer[rawPos..rawLen], eof);
        match r {
          case Short =>
            return true;
          case Invalid =>
            NotGood();
            return false;
          case Char(c, w) =>
            TakeChar(c, w);
            RawFacts();
        }
      }
      return true;
    }

    lemma Distinct()
      requires RawOk() && BufferOk()
      ensures rawBuffer != buffer
    {
    }

    lemma RawFacts()
      requires RawOk()
      ensures rawPos <= rawLen <= rawBuffer.Length == INPUT_RAW_BUFFER_SIZE && offset <= source.pos <= |source.input|
      ensures rawBuffer[rawPos..rawLen] == source.input[offset..source.pos]
    {
    }

    lemma DecodedFacts()
      requires DecodedOk()
      ensures skip == BomLength(source.input) <= offset && encoding != AnyEncoding
    {
    }

    lemma BufferFacts()
      requires BufferOk() && bufferPos == 0
      ensures buffer.Length == INPUT_BUFFER_SIZE && bufferLen <= 4 * unread
    {
      EncodeBound(All()[|All()| - unread..]);
    }

    /** What is left to decode is not good, so all of it is not. */
    lemma NotGood()
      requires RawOk() && DecodedOk() && !Good(rawBuffer[rawPos..rawLen], eof)
      ensures !Good(source.input[skip..source.pos], eof)
    {
      GoodAfter(chars, source.input[offset..source.pos], eof);
      assert source.input[skip..source.pos] == source.input[skip..offset] + source.input[offset..source.pos];
    }

    /** The character at the head of the raw buffer goes to the buffer. */
    method TakeChar(c: CodePoint, w: nat)
      requires RawOk() && BufferOk() && DecodedOk() && bufferPos == 0 && !ended && bufferLen + (rawLen - rawPos) < buffer.Length
      requires Allowed(c) && Encode(c) <= rawBuffer[rawPos..rawLen] && w == Length(c)
      modifies buffer, `rawPos, `offset, `bufferLen, `unread, `chars, `ended
      ensures RawOk() && BufferOk() && DecodedOk() && bufferPos == 0 && !ended && unread == old(unread) + 1
      ensures rawPos == old(rawPos) + w && bufferLen == old(bufferLen) + w && rawLen == old(rawLen)
    {
      hide Encode, BufferOk;
      Distinct();
      DecodedMore(c, w);
      Consume(w);
      PutChar(c, false);
    }

    /** One more character is decoded. */
    lemma DecodedMore(c: CodePoint, w: nat)
      requires RawOk() && DecodedOk() && Allowed(c) && Encode(c) <= rawBuffer[rawPos..rawLen] && w == Length(c)
      ensures offset + w <= source.pos && rawPos + w <= rawLen
      ensures source.input[skip..offset + w] == EncodeAll(chars + [c]) && AllAllowed(chars + [c])
    {
      hide EncodeAll;
      var rest := source.input[offset..source.pos];
      assert source.input[skip..offset + w] == source.input[skip..offset] + rest[..w];
      EncodeAppend(chars, [c]);
      EncodeOne(c);
    }

    /** Makes sure that there are `length` characters to take, or the NUL after the last one. It
        fails only if the handler does, or if the input read so far is not good. */
    method UpdateBuffer(length: nat) returns (ok: bool, ghost handlerFailed: bool)
      requires Valid() && 1 <= length <= 256
      modifies this, rawBuffer, buffer, source
      ensures ok ==> Valid() && (unread >= length || ended) && unread >= old(unread)
      ensures ok && encoding != AnyEncoding ==> Good(source.input[BomLength(source.input)..source.pos], eof)
      ensures !ok && !handlerFailed ==>
        BomLength(source.input) <= source.pos <= |source.input| && !Good(source.input[BomLength(source.input)..source.pos], eof)
    {
      hide Good, RawOk, BufferOk, DecodedOk;
      handlerFailed := false;
      if (eof && rawPos == rawLen) || unread >= length {
        ValidIsGood();
        return true, false;
      }
      ValidFacts();
      if encoding == AnyEncoding {
        ok := DetermineEncoding();
        if !ok {
          return false, true;
        }
        NothingDecoded();
      }
      Compact();
      ok, handlerFailed := Fill(length);
      if ok {
        ValidIsGood();
      }
    }

    lemma NothingDecoded()
      requires encoding == Utf8Encoding && offset == skip == BomLength(source.input) && chars == []
      ensures DecodedOk()
    {
    }

    lemma ValidFacts()
      requires Valid()
      ensures rawBuffer != buffer && (encoding == AnyEncoding ==> offset == 0) && (!(eof && rawPos == rawLen) ==> !ended)
    {
      assert source.input[offset..source.pos] == rawBuffer[rawPos..rawLen];
    }

    lemma ValidIsGood()
      requires Valid()
      ensures encoding != AnyEncoding ==> BomLength(source.input) <= source.pos && Good(source.input[BomLength(source.input)..source.pos], eof)
    {
      if encoding != AnyEncoding {
        var rest := source.input[offset..source.pos];
        assert source.input[skip..source.pos] == source.input[skip..offset] + rest;
        assert GoodAs(source.input[skip..source.pos], eof, chars, rest);
      }
    }

    /** Fills the buffer until it has enough characters. */
    method Fill(length: nat) returns (ok: bool, ghost handlerFailed: bool)
      requires RawOk() && BufferOk() && DecodedOk() && bufferPos == 0 && bufferLen <= 4 * unread && unread < length <= 256 && !ended && encoding != AnyEncoding
      requires !BeginsUtf16(source.input)
      modifies this, rawBuffer, buffer, source
      ensures ok ==> Valid() && (unread >= length || ended) && unread >= old(unread)
      ensures !ok && !handlerFailed ==>
        BomLength(source.input) <= source.pos <= |source.input| && !Good(source.input[BomLength(source.input)..source.pos], eof)
    {
      hide Good, RawOk, BufferOk, DecodedOk;
      BufferFacts();
      RawFacts();
      var first := true;
      while unread < length
        invariant RawOk() && BufferOk() && DecodedOk() && bufferPos == 0 && bufferLen <= 4 * unread && !ended && encoding != AnyEncoding
        invariant unread >= old(unread) && (if first then unread < length else Settled() && !eof)
        decreases |source.input| - source.pos, source.patience, if first then 1 else 0
      {
        ok, handlerFailed := Round(first);
        if !ok {
          return;
        }
        first := false;
        if eof {
          PutChar(0, true);
          break;
        }
      }
      return true, false;
    }

    /** One round: read more, unless this is the first one and there is something left, and decode. */
    method Round(first: bool) returns (ok: bool, ghost handlerFailed: bool)
      requires RawOk() && BufferOk() && DecodedOk() && bufferPos == 0 && bufferLen <= 4 * unread && unread < 256 && !ended
      requires first || (Settled() && !eof)
      modifies rawBuffer, buffer, source`pos, source`patience, `rawPos, `rawLen, `eof, `offset, `bufferLen, `unread, `chars, `ended
      ensures ok ==> RawOk() && BufferOk() && DecodedOk() && bufferPos == 0 && bufferLen <= 4 * unread && !ended && Settled()
      ensures ok ==> unread >= old(unread) && bufferLen < buffer.Length && source.patience <= old(source.patience)
      ensures ok ==> old(source.pos) <= source.pos <= |source.input| && (eof || first || source.pos > old(source.pos) || source.patience < old(source.patience))
      ensures !ok && !handlerFailed ==>
        BomLength(source.input) <= source.pos <= |source.input| && !Good(source.input[BomLength(source.input)..source.pos], eof)
    {
      hide Good, RawOk, BufferOk, DecodedOk;
      BufferFacts();
      RawFacts();
      DecodedFacts();
      if !first || rawPos == rawLen {
        NotFull();
        ok := UpdateRawBuffer();
        if !ok {
          return false, true;
        }
      }
      RawFacts();
      ok := DecodeRaw();
      handlerFailed := false;
      BufferFacts();
      RawFacts();
    }

    /** After decoding, there is room in the raw buffer. */
    lemma NotFull()
      requires RawOk() && (Settled() || rawPos == rawLen)
      ensures !(rawPos == 0 && rawLen == rawBuffer.Length)
    {
      if rawPos != rawLen {
        assert source.input[offset..source.pos] == rawBuffer[rawPos..rawLen];
      }
    }

    /** The scanner takes a character. */
    method Skip()
      requires Valid() && unread > 0
      modifies `bufferPos, `unread
      ensures Valid() && unread == old(unread) - 1
    {
      hide All, DecodedOk, Encode;
      ghost var pending := All()[|All()| - unread..];
      TakeFirst(pending, buffer[bufferPos..bufferLen]);
      assert pending[1..] == All()[|All()| - unread + 1..];
      assert buffer[bufferPos..bufferLen][Length(pending[0])..] == buffer[bufferPos + Length(pending[0])..bufferLen];
      bufferPos := bufferPos + Width(buffer[bufferPos]);
      unread := unread - 1;
    }

    method MoveRaw()
      requires RawOk()
      modifies rawBuffer, `rawPos, `rawLen
      ensures RawOk() && rawPos == 0 && rawLen == old(rawLen) - old(rawPos)
    {
      ghost var was := rawBuffer[rawPos..rawLen];
      var n := rawLen - rawPos;
      CopyDown(rawBuffer, rawPos, n);
      rawLen := n;
      rawPos := 0;
      assert rawBuffer[..n] == was;
    }
  }

  /** Copies bytes into an array. */
  method Store(a: array<Byte>, at: nat, bytes: seq<Byte>)
    requires at + |bytes| <= a.Length
    modifies a
    ensures a[..at + |bytes|] == old(a[..at]) + bytes
  {
    for k := 0 to |bytes|
      invariant a[..at] == old(a[..at]) && a[at..at + k] == bytes[..k]
    {
      a[at + k] := bytes[k];
    }
    assert a[..at + |bytes|] == a[..at] + a[at..at + |bytes|];
  }

  /** `copy(a, a[from..from + n])`. */
  method CopyDown(a: array<Byte>, from: nat, n: nat)
    requires from + n <= a.Length
    modifies a
    ensures a[..n] == old(a[from..from + n])
  {
    for k := 0 to n
      invariant a[..k] == old(a[from..from + k])
      invariant forall j :: from + k <= j < a.Length ==> a[j] == old(a[j])
    {
      a[k] := a[from + k];
    }
  }

  /** When the NUL has been delivered, the bytes delivered are the input after its mark, and the NUL. */
  lemma DeliversInput(p: Parser)
    requires p.Valid() && p.ended
    ensures EncodeAll(p.All()) == p.source.input[BomLength(p.source.input)..] + [0]
    ensures Good(p.source.input[BomLength(p.source.input)..], true)
  {
    EncodeAppend(p.chars, [0]);
    EncodeOne(0);
    var rest := p.source.input[p.skip..];
    assert p.source.input[p.skip..p.offset] == rest;
    assert GoodAs(rest, true, p.chars, []);
  }

  /** Before that, they are the input as far as it has been decoded. */
  lemma DeliversPrefix(p: Parser)
    requires p.Valid() && !p.ended
    ensures EncodeAll(p.All()) <= p.source.input[BomLength(p.source.input)..]
  {
    if p.encoding != AnyEncoding {
      assert p.source.input[p.skip..p.offset] == p.source.input[p.skip..][..p.offset - p.skip];
    }
  }
}
