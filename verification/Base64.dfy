/**
  Unpadded base64 (section 4 of RFC 4648) as Go's `RawStdEncoding` writes it and its
  `Strict` decoder reads it: carriage returns and line feeds are skipped anywhere, and
  the unused bits of a final partial quantum must be zero (section 3.5 of RFC 4648).
 */
module Base64 {
  import opened Basics

  type Byte = b: int | 0 <= b < 256

  function Symbol(v: int): char
    requires 0 <= v < 64
  {
    if v < 26 then ('A' as int + v) as char
    else if v < 52 then ('a' as int + v - 26) as char
    else if v < 62 then ('0' as int + v - 52) as char
    else if v == 62 then '+' else '/'
  }

  predicate IsSymbol(c: char) {
    'A' <= c <= 'Z' || 'a' <= c <= 'z' || '0' <= c <= '9' || c == '+' || c == '/'
  }

  function SymbolValue(c: char): (v: int)
    requires IsSymbol(c)
    ensures 0 <= v < 64 && Symbol(v) == c
  {
    if 'A' <= c <= 'Z' then c as int - 'A' as int
    else if 'a' <= c <= 'z' then c as int - 'a' as int + 26
    else if '0' <= c <= '9' then c as int - '0' as int + 52
    else if c == '+' then 62 else 63
  }

  /** The alphabet of table 1 in section 4 of RFC 4648: A to Z, a to z, 0 to 9, plus and slash, in this order. */
  lemma SymbolsFollowTheTable(v: int)
    requires 0 <= v < 63
    ensures Symbol(0) == 'A' && Symbol(25) == 'Z' && Symbol(26) == 'a' && Symbol(51) == 'z'
    ensures Symbol(52) == '0' && Symbol(61) == '9' && Symbol(62) == '+' && Symbol(63) == '/'
    ensures v !in {25, 51, 61, 62} ==> Symbol(v + 1) as int == Symbol(v) as int + 1
  {
  }

  lemma SymbolValueOfSymbol(v: int)
    requires 0 <= v < 64
    ensures IsSymbol(Symbol(v)) && SymbolValue(Symbol(v)) == v
  {
  }

  // ---------- Quanta: three bytes as four sextets ----------

  type Sextet = v: int | 0 <= v < 64

  /** The 24 bits of three bytes, six at a time. */
  function Scatter(b0: Byte, b1: Byte, b2: Byte): (q: seq<Sextet>)
    ensures |q| == 4
  {
    [b0 / 4, b0 % 4 * 16 + b1 / 16, b1 % 16 * 4 + b2 / 64, b2 % 64]
  }

  /** The 24 bits of four sextets, eight at a time. */
  function Gather(a: Sextet, b: Sextet, c: Sextet, d: Sextet): (g: seq<Byte>)
    ensures |g| == 3
  {
    [a * 4 + b / 16, b % 16 * 16 + c / 4, c % 4 * 64 + d]
  }

  lemma GatherScatter(b0: Byte, b1: Byte, b2: Byte)
    ensures var q := Scatter(b0, b1, b2); Gather(q[0], q[1], q[2], q[3]) == [b0, b1, b2]
  {
  }

  lemma FirstByteSplits(high: int, low: int)
    requires 0 <= low < 4
    ensures (high * 4 + low) / 4 == high && (high * 4 + low) % 4 == low
  {
  }

  lemma SecondByteSplits(high: int, low: int)
    requires 0 <= low < 16
    ensures (high * 16 + low) / 16 == high && (high * 16 + low) % 16 == low
  {
  }

  lemma ThirdByteSplits(high: int, low: int)
    requires 0 <= low < 64
    ensures (high * 64 + low) / 64 == high && (high * 64 + low) % 64 == low
  {
  }

  /** Scattering bytes given by the bits they share with their neighbours. */
  lemma ScatterParts(a: Sextet, b1: int, b0: int, c1: int, c0: int, d: Sextet)
    requires 0 <= b1 < 4 && 0 <= b0 < 16 && 0 <= c1 < 16 && 0 <= c0 < 4
    ensures Scatter(a * 4 + b1, b0 * 16 + c1, c0 * 64 + d) == [a, b1 * 16 + b0, c1 * 4 + c0, d]
  {
    FirstByteSplits(a, b1);
    SecondByteSplits(b0, c1);
    ThirdByteSplits(c0, d);
  }

  lemma ScatterGather(a: Sextet, b: Sextet, c: Sextet, d: Sextet)
    ensures var g := Gather(a, b, c, d); Scatter(g[0], g[1], g[2]) == [a, b, c, d]
  {
    ScatterParts(a, b / 16, b % 16, c / 4, c % 4, d);
  }

  /** A final quantum of one or two bytes stops after the sextets that hold its bits. */
  function Sextets(b: seq<Byte>): seq<Sextet> {
    if |b| == 0 then []
    else if |b| == 1 then Scatter(b[0], 0, 0)[..2]
    else if |b| == 2 then Scatter(b[0], b[1], 0)[..3]
    else Scatter(b[0], b[1], b[2]) + Sextets(b[3..])
  }

  /** Missing sextets of a final quantum read as zero; the bytes past its end must be zero too. */
  function Bytes(q: seq<Sextet>): Option<seq<Byte>> {
    if |q| == 0 then Some([])
    else if |q| == 1 then None
    else if |q| == 2 then
      var g := Gather(q[0], q[1], 0, 0);
      if g[1] != 0 || g[2] != 0 then None else Some(g[..1])
    else if |q| == 3 then
      var g := Gather(q[0], q[1], q[2], 0);
      if g[2] != 0 then None else Some(g[..2])
    else
      match Bytes(q[4..])
      case None => None
      case Some(rest) => Some(Gather(q[0], q[1], q[2], q[3]) + rest)
  }

  lemma {:induction false} BytesOfSextets(b: seq<Byte>)
    ensures Bytes(Sextets(b)) == Some(b)
  {
    if |b| == 1 {
      GatherScatter(b[0], 0, 0);
      var q := Sextets(b);
      assert Scatter(b[0], 0, 0)[2] == 0 && Scatter(b[0], 0, 0)[3] == 0;
      assert Gather(q[0], q[1], 0, 0) == [b[0], 0, 0];
      assert [b[0], 0, 0][..1] == b;
    } else if |b| == 2 {
      GatherScatter(b[0], b[1], 0);
      assert Scatter(b[0], b[1], 0)[3] == 0;
      var q := Sextets(b);
      assert Gather(q[0], q[1], q[2], 0) == [b[0], b[1], 0];
      assert [b[0], b[1], 0][..2] == b;
    } else if |b| > 2 {
      GatherScatter(b[0], b[1], b[2]);
      BytesOfSextets(b[3..]);
      assert Sextets(b)[4..] == Sextets(b[3..]);
      assert b == [b[0], b[1], b[2]] + b[3..];
    }
  }

  lemma {:induction false} SextetsOfBytes(q: seq<Sextet>)
    requires Bytes(q).Some?
    ensures Sextets(Bytes(q).value) == q
  {
    if |q| == 2 {
      ScatterGather(q[0], q[1], 0, 0);
    } else if |q| == 3 {
      ScatterGather(q[0], q[1], q[2], 0);
    } else if |q| >= 4 {
      ScatterGather(q[0], q[1], q[2], q[3]);
      SextetsOfBytes(q[4..]);
      assert Bytes(q).value[3..] == Bytes(q[4..]).value;
      assert q == [q[0], q[1], q[2], q[3]] + q[4..];
    }
  }

  // ---------- Text ----------

  function Encode(b: seq<Byte>): (s: string)
    ensures AllSymbols(s)
  {
    var q := Sextets(b);
    seq(|q|, i requires 0 <= i < |q| => Symbol(q[i]))
  }

  predicate AllSymbols(s: string) { forall i :: 0 <= i < |s| ==> IsSymbol(s[i]) }

  predicate IsNewline(c: char) { c == '\r' || c == '\n' }

  predicate OneLine(s: string) { forall i :: 0 <= i < |s| ==> !IsNewline(s[i]) }

  function DropNewlines(s: string): string {
    if s == "" then "" else (if IsNewline(s[0]) then "" else [s[0]]) + DropNewlines(s[1..])
  }

  function Values(s: string): seq<Sextet>
    requires AllSymbols(s)
  {
    seq(|s|, i requires 0 <= i < |s| => SymbolValue(s[i]))
  }

  function Decode(s: string): Option<seq<Byte>> {
    var t := DropNewlines(s);
    if AllSymbols(t) then Bytes(Values(t)) else None
  }

  lemma {:induction false} DropNothing(s: string)
    requires OneLine(s)
    ensures DropNewlines(s) == s
  {
    if s != "" {
      DropNothing(s[1..]);
    }
  }

  lemma {:induction false} DroppedIsOneLine(s: string)
    ensures OneLine(DropNewlines(s))
  {
    if s != "" {
      DroppedIsOneLine(s[1..]);
    }
  }

  /** Three bytes are written as the four base-64 digits of the 24-bit number they make, the highest first. */
  lemma QuantumIsOneNumber(b0: Byte, b1: Byte, b2: Byte)
    ensures var q := Scatter(b0, b1, b2);
            && q[0] as int * 262144 + q[1] as int * 4096 + q[2] as int * 64 + q[3] as int ==
                 b0 as int * 65536 + b1 as int * 256 + b2 as int
            && Encode([b0, b1, b2]) == [Symbol(q[0]), Symbol(q[1]), Symbol(q[2]), Symbol(q[3])]
  {
    var q := Scatter(b0, b1, b2);
    assert b0 == b0 / 4 * 4 + b0 % 4 && b1 == b1 / 16 * 16 + b1 % 16 && b2 == b2 / 64 * 64 + b2 % 64;
    assert Sextets([b0, b1, b2]) == q by { assert [b0, b1, b2][3..] == []; }
  }

  /**
    Longer input is written three bytes at a time; one or two last bytes as if zeros followed, without the symbols
    that would stand for nothing but those zeros.
   */
  lemma EncodeByQuanta(b: seq<Byte>)
    ensures |b| >= 3 ==> Encode(b) == Encode(b[..3]) + Encode(b[3..])
    ensures |b| == 2 ==> Encode(b) == Encode(b + [0])[..3]
    ensures |b| == 1 ==> Encode(b) == Encode(b + [0, 0])[..2]
    ensures |b| == 0 ==> Encode(b) == ""
  {
    if |b| >= 3 {
      assert b[..3][3..] == [];
      assert Sextets(b) == Sextets(b[..3]) + Sextets(b[3..]);
    } else if |b| == 2 {
      var c := b + [0];
      assert c[3..] == [] && c[0] == b[0] && c[1] == b[1];
      assert Sextets(c) == Scatter(b[0], b[1], 0);
    } else if |b| == 1 {
      var c := b + [0, 0];
      assert c[3..] == [] && c[0] == b[0];
      assert Sextets(c) == Scatter(b[0], 0, 0);
    }
  }

  /** Decoding undoes encoding. */
  lemma DecodeOfEncode(b: seq<Byte>)
    ensures Decode(Encode(b)) == Some(b)
  {
    var s := Encode(b);
    DropNothing(s);
    BytesOfSextets(b);
    forall i | 0 <= i < |s| ensures Values(s)[i] == Sextets(b)[i] {
      SymbolValueOfSymbol(Sextets(b)[i]);
    }
    assert Values(s) == Sextets(b);
  }

  /** Whatever decodes re-encodes to itself without its line breaks: one spelling per value. */
  lemma EncodeOfDecode(s: string)
    requires Decode(s).Some?
    ensures Encode(Decode(s).value) == DropNewlines(s)
  {
    SextetsOfBytes(Values(DropNewlines(s)));
  }
}
