/** Fixed-width integers, little-endian byte layouts and decimal text: the
    primitive encodings the cache files are built from. */
module Binary {

  newtype uint8 = x: int | 0 <= x < 0x100
  newtype uint32 = x: int | 0 <= x < 0x1_0000_0000

  /** The contents of a file, or any byte stream. */
  type Bytes = seq<uint8>

  const TWO_TO_THE_32: nat := 0x1_0000_0000
  const TWO_TO_THE_64: nat := 0x1_0000_0000_0000_0000

  datatype Option<+T> = None | Some(value: T) {
    /** The value, or `default` when there is none (Rust's unwrap_or). */
    function UnwrapOr(default: T): T {
      if Some? then value else default
    }
  }

  function Pow256(n: nat): (r: nat)
    ensures r >= 1
  {
    if n == 0 then 1 else 256 * Pow256(n - 1)
  }

  lemma Pow256Widths()
    ensures Pow256(4) == TWO_TO_THE_32
    ensures Pow256(8) == TWO_TO_THE_64
  {
    assert Pow256(1) == 0x100;
    assert Pow256(2) == 0x1_0000;
    assert Pow256(3) == 0x100_0000;
    assert Pow256(4) == 0x1_0000_0000;
    assert Pow256(5) == 0x100_0000_0000;
    assert Pow256(6) == 0x1_0000_0000_0000;
    assert Pow256(7) == 0x100_0000_0000_0000;
  }

  /** The low `width` bytes of `n`, least significant first; like an `as`
      cast to a `width`-byte integer, it drops the higher bytes. */
  function LittleEndian(n: nat, width: nat): (r: Bytes)
    ensures |r| == width
  {
    if width == 0 then [] else [(n % 256) as uint8] + LittleEndian(n / 256, width - 1)
  }

  /** The number whose little-endian bytes are `bs`. */
  function FromLittleEndian(bs: Bytes): (n: nat)
    ensures n < Pow256(|bs|)
  {
    if bs == [] then 0 else bs[0] as nat + 256 * FromLittleEndian(bs[1..])
  }

  lemma {:induction false} LittleEndianRoundTrip(n: nat, width: nat)
    requires n < Pow256(width)
    ensures FromLittleEndian(LittleEndian(n, width)) == n
  {
    if width > 0 {
      var bs := LittleEndian(n, width);
      assert bs[1..] == LittleEndian(n / 256, width - 1);
      LittleEndianRoundTrip(n / 256, width - 1);
    }
  }

  function EncodeU32(x: uint32): (r: Bytes)
    ensures |r| == 4
  {
    LittleEndian(x as nat, 4)
  }

  /** A u64 field; a value of 2^64 or more wraps, as a cast to u64 would. */
  function EncodeU64(n: nat): (r: Bytes)
    ensures |r| == 8
  {
    LittleEndian(n, 8)
  }

  function DecodeU32(bs: Bytes): (r: Option<(uint32, Bytes)>)
    ensures r.Some? <==> |bs| >= 4
    ensures r.Some? ==> r.value.1 == bs[4..]
  {
    if |bs| < 4 then None
    else
      Pow256Widths();
      Some((FromLittleEndian(bs[..4]) as uint32, bs[4..]))
  }

  function DecodeU64(bs: Bytes): (r: Option<(nat, Bytes)>)
    ensures r.Some? <==> |bs| >= 8
    ensures r.Some? ==> r.value.0 < TWO_TO_THE_64 && r.value.1 == bs[8..]
  {
    if |bs| < 8 then None
    else
      Pow256Widths();
      Some((FromLittleEndian(bs[..8]), bs[8..]))
  }

  lemma U32RoundTrip(x: uint32, rest: Bytes)
    ensures DecodeU32(EncodeU32(x) + rest) == Some((x, rest))
  {
    var e := EncodeU32(x);
    assert (e + rest)[..4] == e;
    assert (e + rest)[4..] == rest;
    Pow256Widths();
    LittleEndianRoundTrip(x as nat, 4);
  }

  lemma U64RoundTrip(n: nat, rest: Bytes)
    requires n < TWO_TO_THE_64
    ensures DecodeU64(EncodeU64(n) + rest) == Some((n, rest))
  {
    var e := EncodeU64(n);
    assert (e + rest)[..8] == e;
    assert (e + rest)[8..] == rest;
    Pow256Widths();
    LittleEndianRoundTrip(n, 8);
  }

  /** Bytes after the ones read pass through: decoding `bs + t` reads the
      same number and leaves `t` after what decoding `bs` left. */
  lemma DecodeU32Extends(bs: Bytes, t: Bytes)
    requires DecodeU32(bs).Some?
    ensures DecodeU32(bs + t) == Some((DecodeU32(bs).value.0, DecodeU32(bs).value.1 + t))
  {
    assert (bs + t)[..4] == bs[..4];
    assert (bs + t)[4..] == bs[4..] + t;
  }

  lemma DecodeU64Extends(bs: Bytes, t: Bytes)
    requires DecodeU64(bs).Some?
    ensures DecodeU64(bs + t) == Some((DecodeU64(bs).value.0, DecodeU64(bs).value.1 + t))
  {
    assert (bs + t)[..8] == bs[..8];
    assert (bs + t)[8..] == bs[8..] + t;
  }

  /** Decimal text, as Rust's `{}` formats an unsigned integer. */
  function Decimal(n: nat): (s: string)
    ensures |s| >= 1
    ensures forall i :: 0 <= i < |s| ==> IsDigit(s[i])
    decreases n
  {
    if n < 10 then [DigitChar(n)] else Decimal(n / 10) + [DigitChar(n % 10)]
  }

  predicate IsDigit(c: char) {
    '0' <= c <= '9'
  }

  function DigitChar(d: nat): (c: char)
    requires d < 10
    ensures IsDigit(c)
  {
    ('0' as int + d) as char
  }

  /** Reads a string of decimal digits back as a number. */
  function ParseDecimal(s: string): nat
  {
    if s == [] then 0
    else
      var c := s[|s| - 1];
      var d := if '0' <= c <= '9' then c as int - '0' as int else 0;
      10 * ParseDecimal(s[..|s| - 1]) + d
  }

  lemma {:induction false} DecimalRoundTrip(n: nat)
    ensures ParseDecimal(Decimal(n)) == n
    decreases n
  {
    if n >= 10 {
      var s := Decimal(n);
      assert s[..|s| - 1] == Decimal(n / 10);
      DecimalRoundTrip(n / 10);
    }
  }

  /** Distinct numbers print as distinct decimal strings. */
  lemma DecimalInjective(i: nat, j: nat)
    requires Decimal(i) == Decimal(j)
    ensures i == j
  {
    DecimalRoundTrip(i);
    DecimalRoundTrip(j);
  }

  /** The bytes of an ASCII string (each character's low eight bits). */
  function Ascii(s: string): (r: Bytes)
    ensures |r| == |s|
  {
    seq(|s|, i requires 0 <= i < |s| => (s[i] as int % 256) as uint8)
  }

  /** A bool as Rust's `{}` formats it. */
  function BoolText(b: bool): string {
    if b then "true" else "false"
  }

  /** The run of digits a string starts with, as a reader of a `key: {}`
      line takes the number. */
  function LeadingDigits(s: string): (r: string)
    ensures |r| <= |s| && r == s[..|r|]
  {
    if s == [] || !IsDigit(s[0]) then [] else [s[0]] + LeadingDigits(s[1..])
  }

  /** Digits followed by a non-digit read back as exactly those digits. */
  lemma {:induction false} LeadingDigitsOf(digits: string, rest: string)
    requires forall i :: 0 <= i < |digits| ==> IsDigit(digits[i])
    requires rest == [] || !IsDigit(rest[0])
    ensures LeadingDigits(digits + rest) == digits
  {
    if digits != [] {
      assert (digits + rest)[1..] == digits[1..] + rest;
      LeadingDigitsOf(digits[1..], rest);
    }
  }

  /** A number printed after `head` and followed by a non-digit reads back
      from the text. */
  lemma ReadNumberAfter(head: string, n: nat, tail: string)
    requires tail == [] || !IsDigit(tail[0])
    ensures (head + Decimal(n) + tail)[..|head|] == head
    ensures ParseDecimal(LeadingDigits((head + Decimal(n) + tail)[|head|..])) == n
  {
    assert (head + Decimal(n) + tail)[|head|..] == Decimal(n) + tail;
    LeadingDigitsOf(Decimal(n), tail);
    DecimalRoundTrip(n);
  }
}
