/** Wire-level primitives shared by both codecs: fixed-width integers in network
    byte order, the .NET ASCII encoding, decimal text (Int32.ToString and
    Int32.TryParse) and the two's-complement wrap of unchecked C# arithmetic. */
module Wire {
  import opened Wrappers

  type byte = x: int | 0 <= x < 0x100
  type uint16 = x: int | 0 <= x < 0x1_0000
  type uint32 = x: int | 0 <= x < 0x1_0000_0000
  type int32 = x: int | -0x8000_0000 <= x < 0x8000_0000

  /** An IPv4 address as its four bytes (IPAddress.GetAddressBytes). */
  type Ipv4 = a: seq<byte> | |a| == 4 witness [0, 0, 0, 0]

  /** IPAddress.Broadcast, 255.255.255.255. */
  const Broadcast: Ipv4 := [255, 255, 255, 255]

  /** `count` zero bytes (a freshly allocated C# byte array). */
  function Zeros(count: nat): (r: seq<byte>)
    ensures |r| == count && forall i | 0 <= i < count :: r[i] == 0
  {
    seq(count, _ => 0)
  }

  /** The index of the first zero byte of `b` (a string terminator), or |b| when there is none. */
  function FirstZero(b: seq<byte>): (k: nat)
    ensures k <= |b|
    ensures forall i | 0 <= i < k :: b[i] != 0
    ensures k < |b| ==> b[k] == 0
  {
    if b == [] || b[0] == 0 then 0 else 1 + FirstZero(b[1..])
  }

  // ---------------------------------------------------------------------------
  // Unchecked Int32 arithmetic

  /** The Int32 that unchecked C# arithmetic or an (Int32) cast yields for `x`. */
  function ToInt32(x: int): (r: int32)
    ensures (x - r) % 0x1_0000_0000 == 0
    ensures -0x8000_0000 <= x < 0x8000_0000 ==> r == x
  {
    var m := x % 0x1_0000_0000;
    if m < 0x8000_0000 then m else m - 0x1_0000_0000
  }

  // ---------------------------------------------------------------------------
  // Network byte order

  /** The two bytes of `v`, most significant first. */
  function UInt16Bytes(v: uint16): (r: seq<byte>)
    ensures |r| == 2
  {
    [v / 0x100, v % 0x100]
  }

  /** The number whose most significant byte is `hi` and least significant `lo`. */
  function UInt16Of(hi: byte, lo: byte): uint16 {
    hi * 0x100 + lo
  }

  /** The four bytes of `v`, most significant first. */
  function UInt32Bytes(v: uint32): (r: seq<byte>)
    ensures |r| == 4
  {
    [v / 0x100_0000, (v / 0x1_0000) % 0x100, (v / 0x100) % 0x100, v % 0x100]
  }

  /** The number whose bytes, most significant first, are `b`. */
  function UInt32Of(b: seq<byte>): uint32
    requires |b| == 4
  {
    ((b[0] as int * 0x100 + b[1]) * 0x100 + b[2]) * 0x100 + b[3]
  }

  /** IPAddress.NetworkToHostOrder on a little-endian host: the two bytes swapped. */
  function Swap16(v: uint16): uint16 {
    UInt16Of(v % 0x100, v / 0x100)
  }

  /** IPAddress.NetworkToHostOrder on a little-endian host: the four bytes reversed. */
  function Swap32(v: uint32): uint32 {
    var b := UInt32Bytes(v);
    UInt32Of([b[3], b[2], b[1], b[0]])
  }

  /** The byte swap keeps zero, so a missing option read with the default 0 gives 0. */
  lemma SwapZero()
    ensures Swap16(0) == 0 && Swap32(0) == 0
  {
    assert UInt32Bytes(0) == [0, 0, 0, 0];
  }

  lemma UInt16RoundTrip(v: uint16)
    ensures UInt16Of(UInt16Bytes(v)[0], UInt16Bytes(v)[1]) == v
  {
  }

  lemma UInt16BytesOf(hi: byte, lo: byte)
    ensures UInt16Bytes(UInt16Of(hi, lo)) == [hi, lo]
  {
  }

  lemma UInt32RoundTrip(v: uint32)
    ensures UInt32Of(UInt32Bytes(v)) == v
  {
    var b := UInt32Bytes(v);
    assert v / 0x100 == (v / 0x1_0000) * 0x100 + b[2];
    assert v / 0x1_0000 == (v / 0x100_0000) * 0x100 + b[1];
  }

  lemma UInt32BytesOf(b: seq<byte>)
    requires |b| == 4
    ensures UInt32Bytes(UInt32Of(b)) == b
  {
    var v := UInt32Of(b);
    assert v / 0x100 == (b[0] as int * 0x100 + b[1]) * 0x100 + b[2];
    assert v / 0x1_0000 == b[0] as int * 0x100 + b[1];
  }

  // ---------------------------------------------------------------------------
  // Encoding.ASCII

  /** Encoding.ASCII.GetBytes: every character above 0x7F becomes '?'. */
  function AsciiBytes(s: string): (r: seq<byte>)
    ensures |r| == |s|
  {
    seq(|s|, i requires 0 <= i < |s| => if s[i] as int < 0x80 then s[i] as int else '?' as int)
  }

  /** Encoding.ASCII.GetString: every byte above 0x7F becomes '?'. */
  function AsciiString(b: seq<byte>): (r: string)
    ensures |r| == |b|
  {
    seq(|b|, i requires 0 <= i < |b| => if b[i] < 0x80 then b[i] as char else '?')
  }

  predicate IsAscii(s: string) {
    forall i | 0 <= i < |s| :: s[i] as int < 0x80
  }

  /** Decoding the encoding of an ASCII string gives the string back. */
  lemma AsciiRoundTrip(s: string)
    requires IsAscii(s)
    ensures AsciiString(AsciiBytes(s)) == s
  {
  }

  /** A string without the NUL character. */
  predicate NoNul(s: string) {
    forall i | 0 <= i < |s| :: s[i] != '\0'
  }

  /** Whatever the input, the decoder only yields ASCII characters. */
  lemma AsciiStringIsAscii(b: seq<byte>)
    ensures IsAscii(AsciiString(b))
  {
  }

  // ---------------------------------------------------------------------------
  // Lower case

  function LowerChar(c: char): char {
    if 'A' <= c <= 'Z' then (c as int + 32) as char else c
  }

  /** String.ToLower restricted to the ASCII letters (the only letters an
      ASCII-decoded string can hold). */
  function ToLower(s: string): (r: string)
    ensures |r| == |s|
  {
    seq(|s|, i requires 0 <= i < |s| => LowerChar(s[i]))
  }

  predicate IsLower(s: string) {
    forall i | 0 <= i < |s| :: !('A' <= s[i] <= 'Z')
  }

  lemma ToLowerIsLower(s: string)
    ensures IsLower(ToLower(s)) && ToLower(ToLower(s)) == ToLower(s)
  {
  }

  lemma ToLowerOfLower(s: string)
    requires IsLower(s)
    ensures ToLower(s) == s
  {
  }

  // ---------------------------------------------------------------------------
  // Decimal text

  predicate IsDigit(c: char) { '0' <= c <= '9' }

  predicate AllDigits(s: string) {
    forall i | 0 <= i < |s| :: IsDigit(s[i])
  }

  function DigitChar(d: nat): (c: char)
    requires d < 10
    ensures IsDigit(c)
  {
    ('0' as int + d) as char
  }

  /** The decimal digits of `n` without leading zeros (UInt32.ToString, and Int32.ToString of
      a non-negative value). */
  function NatText(n: nat): (s: string)
    ensures |s| > 0 && AllDigits(s)
  {
    if n < 10 then [DigitChar(n)] else NatText(n / 10) + [DigitChar(n % 10)]
  }

  /** Int32.ToString. */
  function IntText(n: int): string {
    if n < 0 then "-" + NatText(-n) else NatText(n)
  }

  /** The value of a sequence of decimal digits. */
  function DigitsValue(s: string): nat
    requires AllDigits(s)
  {
    if s == [] then 0 else DigitsValue(s[..|s| - 1]) * 10 + (s[|s| - 1] as int - '0' as int)
  }

  /** The white space Int32.TryParse skips before and after the number. */
  predicate IsWhite(c: char) { c == ' ' || '\t' <= c <= '\r' }

  function TrimStart(s: string): (r: string)
    ensures |r| <= |s|
  {
    if |s| > 0 && IsWhite(s[0]) then TrimStart(s[1..]) else s
  }

  function TrimEnd(s: string): (r: string)
    ensures |r| <= |s|
  {
    if |s| > 0 && IsWhite(s[|s| - 1]) then TrimEnd(s[..|s| - 1]) else s
  }

  /** Int32.TryParse with the default NumberStyles.Integer: optional white space, an
      optional sign, one or more decimal digits, optional white space, and a value that
      fits in an Int32. */
  function ParseInt32(s: string): Option<int32> {
    var t := TrimEnd(TrimStart(s));
    var signed := |t| > 0 && (t[0] == '-' || t[0] == '+');
    var digits := if signed then t[1..] else t;
    if |digits| == 0 || !AllDigits(digits) then None
    else
      var magnitude: int := DigitsValue(digits);
      var v := if signed && t[0] == '-' then -magnitude else magnitude;
      if -0x8000_0000 <= v < 0x8000_0000 then Some(v) else None
  }

  lemma {:induction false} NatTextValue(n: nat)
    ensures DigitsValue(NatText(n)) == n
  {
    if n >= 10 {
      var s := NatText(n);
      assert s[..|s| - 1] == NatText(n / 10);
      NatTextValue(n / 10);
    }
  }

  /** Int32.TryParse reads back what Int32.ToString wrote. */
  lemma ParseIntText(n: int32)
    ensures ParseInt32(IntText(n)) == Some(n)
  {
    var s := IntText(n);
    var m: nat := if n < 0 then -(n as int) else n;
    var d := NatText(m);
    NatTextValue(m);
    assert s == (if n < 0 then "-" + d else d);
    assert !IsWhite(s[0]);
    assert TrimStart(s) == s;
    assert s[|s| - 1] == d[|d| - 1];
    assert !IsWhite(s[|s| - 1]);
    assert TrimEnd(s) == s;
    if n < 0 {
      assert s[1..] == d;
    } else {
      assert !(s[0] == '-' || s[0] == '+');
    }
  }

  /** The dotted-decimal text of an IPv4 address (IPAddress.ToString). */
  function AddressText(a: Ipv4): string {
    NatText(a[0]) + "." + NatText(a[1]) + "." + NatText(a[2]) + "." + NatText(a[3])
  }
}
