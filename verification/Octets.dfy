/** The decoders' cursor, big-endian integers and hexadecimal text. */
module Octets {
  import opened Base
  import opened Bits

  // The next n octets and the input that follows them; too short an input is an error.
  function Take(data: Bytes, n: nat): (r: Result<(Bytes, Bytes)>)
    ensures r.Ok? <==> n <= |data|
    ensures r.Ok? ==> |r.value.0| == n && r.value.0 + r.value.1 == data
    ensures r.Err? ==> r.error == Truncated
  {
    if |data| < n then Err(Truncated) else Ok((data[..n], data[n..]))
  }

  lemma TakeSplit(head: Bytes, tail: Bytes)
    ensures Take(head + tail, |head|) == Ok((head, tail))
  {
    assert (head + tail)[..|head|] == head;
    assert (head + tail)[|head|..] == tail;
  }

  lemma TakeOne(b: byte, tail: Bytes)
    ensures Take([b] + tail, 1) == Ok(([b], tail))
  {
    TakeSplit([b], tail);
  }

  // The number whose base-256 digits, most significant first, are the octets.
  function BeValue(data: Bytes): nat {
    if data == [] then 0 else BeValue(data[..|data| - 1]) * 256 + data[|data| - 1]
  }

  // The low n base-256 digits of v, most significant first.
  function ToBe(v: nat, n: nat): (d: Bytes)
    ensures |d| == n
  {
    if n == 0 then [] else ToBe(v / 256, n - 1) + [v % 256]
  }

  function Pow256(n: nat): (p: nat)
    ensures p > 0
  {
    if n == 0 then 1 else 256 * Pow256(n - 1)
  }

  lemma {:induction false} BeRoundTrip(v: nat, n: nat)
    requires v < Pow256(n)
    ensures BeValue(ToBe(v, n)) == v
  {
    if n > 0 {
      BeRoundTrip(v / 256, n - 1);
      var d := ToBe(v, n);
      assert d[..n - 1] == ToBe(v / 256, n - 1);
    }
  }

  lemma {:induction false} BeDigits(data: Bytes)
    ensures BeValue(data) < Pow256(|data|)
    ensures ToBe(BeValue(data), |data|) == data
  {
    if data != [] {
      BeDigits(data[..|data| - 1]);
      assert data[..|data| - 1] + [data[|data| - 1]] == data;
    }
  }

  function U16(high: nat, low: nat): nat {
    high * 256 + low
  }

  lemma BeTwo(data: Bytes)
    requires |data| == 2
    ensures BeValue(data) == U16(data[0], data[1]) < 65536
  {
    var one := data[..1];
    assert one[..0] == [] && one[0] == data[0];
    assert BeValue(one) == BeValue(one[..0]) * 256 + one[0];
  }

  // A 64-bit accumulator: shift in one octet at a time. More than eight octets wrap.
  method ReadBeInt(data: Bytes) returns (val: nat)
    ensures val == BeValue(data) % TWO64
    ensures |data| <= 8 ==> val == BeValue(data)
  {
    val := 0;
    for i := 0 to |data|
      invariant val == BeValue(data[..i]) % TWO64
    {
      PushOctet(BeValue(data[..i]), data[i]);
      BeSnoc(data, i);
      val := Or(Shl(val, 8, TWO64), data[i]);
    }
    assert data[..|data|] == data;
    if |data| <= 8 {
      BeDigits(data);
      Pow256Monotone(|data|, 8);
    }
  }

  lemma {:induction false} Pow256Monotone(m: nat, n: nat)
    requires m <= n
    ensures Pow256(m) <= Pow256(n)
  {
    if m < n {
      Pow256Monotone(m, n - 1);
    }
  }

  lemma BeSnoc(data: Bytes, i: nat)
    requires i < |data|
    ensures BeValue(data[..i + 1]) == BeValue(data[..i]) * 256 + data[i]
  {
    assert data[..i + 1][..i] == data[..i];
  }

  const TWO64: nat := 0x1_0000_0000_0000_0000

  lemma PushOctet(x: nat, b: byte)
    ensures Or(Shl(x % TWO64, 8, TWO64), b) == (x * 256 + b) % TWO64
  {
    var low := x % 0x100_0000_0000_0000;
    Truncation(x, b);
    ScaleMultiplies(x % TWO64, 8);
    ScaleMultiplies(low, 8);
    assert Pow2(8) == 256;
    OrDisjoint(low, b, 8);
  }

  // Only the low 56 bits survive a shift by eight in 64.
  lemma Truncation(x: nat, b: byte)
    ensures 256 * (x % TWO64) % TWO64 == 256 * (x % 0x100_0000_0000_0000)
    ensures (x * 256 + b) % TWO64 == 256 * (x % 0x100_0000_0000_0000) + b
  {
    var m := 0x100_0000_0000_0000;
    var q, low := x / m, x % m;
    var k, j := q / 256, q % 256;
    assert x == TWO64 * k + (m * j + low);
    DivMod(x, TWO64, k, m * j + low);
    DivMod(256 * (x % TWO64), TWO64, j, 256 * low);
    DivMod(x * 256 + b, TWO64, 256 * k + j, 256 * low + b);
  }

  const DIGITS: string := "0123456789abcdef"

  function HexPair(b: byte): (s: string)
    ensures |s| == 2
  {
    [DIGITS[b / 16], DIGITS[b % 16]]
  }

  // Two lower-case hexadecimal digits for each octet.
  function HexText(data: Bytes): (s: string)
    ensures |s| == 2 * |data|
  {
    if data == [] then [] else HexText(data[..|data| - 1]) + HexPair(data[|data| - 1])
  }

  method HexEncode(data: Bytes) returns (s: string)
    ensures s == HexText(data)
  {
    s := [];
    for i := 0 to |data|
      invariant s == HexText(data[..i])
    {
      assert Pow2(4) == 16;
      AndLow(data[i], 4);
      ShiftDivides(data[i], 4);
      assert data[..i + 1][..i] == data[..i];
      s := s + [DIGITS[Shr(data[i], 4)]];
      s := s + [DIGITS[And(data[i], 0x0f)]];
    }
    assert data[..|data|] == data;
  }

  function DigitValue(c: char): nat {
    if '0' <= c <= '9' then c as nat - '0' as nat
    else if 'a' <= c <= 'f' then c as nat - 'a' as nat + 10
    else 0
  }

  function HexDecode(s: string): seq<nat> {
    if |s| < 2 then []
    else HexDecode(s[..|s| - 2]) + [16 * DigitValue(s[|s| - 2]) + DigitValue(s[|s| - 1])]
  }

  lemma DigitRoundTrip(d: nat)
    requires d < 16
    ensures DigitValue(DIGITS[d]) == d
  {
    assert d <= 9 ==> DIGITS[d] == '0' + d as char;
    assert d > 9 ==> DIGITS[d] == 'a' + (d - 10) as char;
  }

  lemma HexPairDecodes(s: string, b: byte)
    ensures HexDecode(s + HexPair(b)) == HexDecode(s) + [b]
  {
    DigitRoundTrip(b / 16);
    DigitRoundTrip(b % 16);
    assert (s + HexPair(b))[..|s|] == s;
  }

  lemma SplitLast<T>(s: seq<T>)
    requires s != []
    ensures s == s[..|s| - 1] + [s[|s| - 1]]
  {
  }

  // The hexadecimal form loses nothing.
  lemma {:induction false} HexRoundTrip(data: Bytes)
    ensures HexDecode(HexText(data)) == data
  {
    if data != [] {
      var init, last := data[..|data| - 1], data[|data| - 1];
      HexRoundTrip(init);
      HexPairDecodes(HexText(init), last);
      SplitLast(data);
    }
  }
}
