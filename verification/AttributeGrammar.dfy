/**
 * Path attribute values as they stand on the wire, and their agreement with the decoder: the
 * communities and actions of RFC 8955 section 7, large communities, aggregators, clusters, paths.
 */
module AttributeGrammar {
  import opened Base
  import opened Bits
  import opened Octets
  import opened Prefixes
  import opened Attributes

  /* ---------- fixed-size pieces ---------- */

  predicate AllSized(pieces: seq<Bytes>, n: nat) {
    forall i | 0 <= i < |pieces| :: |pieces[i]| == n
  }

  function Concat(pieces: seq<Bytes>): Bytes {
    if pieces == [] then [] else pieces[0] + Concat(pieces[1..])
  }

  // Pieces laid end to end are cut into those pieces.
  lemma {:induction false} ChunksComplete(pieces: seq<Bytes>, n: nat)
    requires n > 0 && AllSized(pieces, n)
    ensures Chunks(Concat(pieces), n) == pieces
  {
    if pieces != [] {
      var rest := Concat(pieces[1..]);
      ChunksComplete(pieces[1..], n);
      assert |pieces[0]| == n;
      assert (pieces[0] + rest)[..n] == pieces[0] && (pieces[0] + rest)[n..] == rest;
      assert pieces == [pieces[0]] + pieces[1..];
    }
  }

  // There are as many pieces as fit, and when they fit exactly nothing is left out.
  lemma {:induction false} ChunksSound(data: Bytes, n: nat)
    requires n > 0
    ensures AllSized(Chunks(data, n), n) && |Chunks(data, n)| == |data| / n
    ensures |data| % n == 0 ==> Concat(Chunks(data, n)) == data
    decreases |data|
  {
    if |data| < n {
      DivMod(|data|, n, 0, |data|);
    } else {
      var rest := data[n..];
      ChunksSound(rest, n);
      StepDown(|data|, n);
      assert Chunks(data, n) == [data[..n]] + Chunks(rest, n);
      assert data == data[..n] + rest;
    }
  }

  lemma StepDown(a: nat, n: nat)
    requires 0 < n <= a
    ensures a / n == (a - n) / n + 1 && a % n == (a - n) % n
  {
    var q, r := (a - n) / n, (a - n) % n;
    assert a - n == n * q + r;
    assert n * (q + 1) == n * q + n;
    DivMod(a, n, q + 1, r);
  }

  lemma {:induction false} ConcatLength(pieces: seq<Bytes>, n: nat)
    requires n > 0 && AllSized(pieces, n)
    ensures |Concat(pieces)| % n == 0
  {
    if pieces != [] {
      var rest := Concat(pieces[1..]);
      ConcatLength(pieces[1..], n);
      assert |Concat(pieces)| == n + |rest|;
      OneMore(|rest|, n);
    }
  }

  lemma OneMore(a: nat, n: nat)
    requires n > 0
    ensures (n + a) % n == a % n
  {
    StepDown(n + a, n);
  }

  // A list of values laid out by an encoder.
  function Laid<T>(values: seq<T>, encode: T --> Bytes): Bytes
    requires forall v | v in values :: encode.requires(v)
  {
    Concat(seq(|values|, i requires 0 <= i < |values| => encode(values[i])))
  }

  function Mapped<T, U>(values: seq<T>, f: T --> U): (r: seq<U>)
    requires forall v | v in values :: f.requires(v)
    ensures |r| == |values|
  {
    seq(|values|, i requires 0 <= i < |values| => f(values[i]))
  }

  // A decoder that undoes the encoder reads the list back.
  lemma LaidComplete<T, U>(values: seq<T>, encode: T --> Bytes, n: nat, decode: Bytes --> U, show: T --> U)
    requires n > 0 && forall c: Bytes | |c| == n :: decode.requires(c)
    requires forall v | v in values :: encode.requires(v) && show.requires(v) && |encode(v)| == n
    requires forall v | v in values :: decode(encode(v)) == show(v)
    ensures |Laid(values, encode)| % n == 0
    ensures MapChunks(Chunks(Laid(values, encode), n), n, decode) == Mapped(values, show)
  {
    var pieces := seq(|values|, i requires 0 <= i < |values| => encode(values[i]));
    ChunksComplete(pieces, n);
    ConcatLength(pieces, n);
  }

  // Input of whole pieces is a list laid out, if every piece is a value laid out.
  lemma LaidSound<T, U>(data: Bytes, n: nat, parse: Bytes --> T, encode: T --> Bytes, decode: Bytes --> U,
                        show: T --> U)
    requires n > 0 && |data| % n == 0
    requires forall c: Bytes | |c| == n ::
               parse.requires(c) && decode.requires(c) && encode.requires(parse(c)) && show.requires(parse(c))
    requires forall c: Bytes | |c| == n :: encode(parse(c)) == c && decode(c) == show(parse(c))
    ensures var values := MapChunks(Chunks(data, n), n, parse);
            && (forall v | v in values :: encode.requires(v) && show.requires(v))
            && Laid(values, encode) == data && MapChunks(Chunks(data, n), n, decode) == Mapped(values, show)
  {
    ChunksSound(data, n);
    var chunks := Chunks(data, n);
    var values := MapChunks(chunks, n, parse);
    assert forall i | 0 <= i < |chunks| :: values[i] == parse(chunks[i]);
    assert seq(|values|, i requires 0 <= i < |values| => encode(values[i])) == chunks;
  }

  /* ---------- numbers ---------- */

  predicate Fits16(v: nat) {
    v < 0x1_0000
  }

  predicate Fits32(v: nat) {
    v < 0x1_0000_0000
  }

  lemma ReadBack(v: nat)
    ensures Fits16(v) ==> BeValue(ToBe(v, 2)) == v
    ensures Fits32(v) ==> BeValue(ToBe(v, 4)) == v
  {
    assert Pow256(1) == 0x100 && Pow256(2) == 0x1_0000 && Pow256(3) == 0x100_0000 && Pow256(4) == 0x1_0000_0000;
    if Fits16(v) {
      BeRoundTrip(v, 2);
    }
    if Fits32(v) {
      BeRoundTrip(v, 4);
    }
  }

  lemma ReadFrom(data: Bytes)
    ensures |data| == 2 ==> Fits16(BeValue(data)) && ToBe(BeValue(data), 2) == data
    ensures |data| == 4 ==> Fits32(BeValue(data)) && ToBe(BeValue(data), 4) == data
  {
    assert Pow256(1) == 0x100 && Pow256(2) == 0x1_0000 && Pow256(3) == 0x100_0000 && Pow256(4) == 0x1_0000_0000;
    BeDigits(data);
  }

  /* ---------- rates ---------- */

  // A binary32 number: a sign, and a significand times a power of two.
  datatype Binary32 = NotANumber | Infinite(negative: bool) | Finite(negative: bool, significand: nat, exponent: int)

  function ReadBinary32(f: Bytes): Binary32
    requires |f| == 4
  {
    var v := BeValue(f);
    var negative, e, m := v / 0x8000_0000 % 2 == 1, v / 0x80_0000 % 256, v % 0x80_0000;
    if e == 255 then (if m == 0 then Infinite(negative) else NotANumber)
    else if e == 0 then Finite(negative, m, -149)
    else Finite(negative, m + 0x80_0000, e - 150)
  }

  function PowerOfTwo(e: int): (p: real)
    ensures p > 0.0
    decreases if e < 0 then -e else e
  {
    if e == 0 then 1.0 else if e > 0 then 2.0 * PowerOfTwo(e - 1) else PowerOfTwo(e + 1) / 2.0
  }

  function RealValue(x: Binary32): real
    requires x.Finite?
  {
    (if x.negative then -(x.significand as real) else x.significand as real) * PowerOfTwo(x.exponent)
  }

  // The comparison with zero of IEEE 754.
  predicate AtMostZero(x: Binary32) {
    match x
    case NotANumber => false
    case Infinite(negative) => negative
    case Finite(_, _, _) => RealValue(x) <= 0.0
  }

  lemma SignOfProduct(a: real, p: real)
    requires p > 0.0
    ensures a * p <= 0.0 <==> a <= 0.0
  {
    if a > 0.0 {
      assert a * p > 0.0;
    }
  }

  // The test on the octets of a rate is the comparison of its value with zero.
  lemma RateComparison(f: Bytes)
    requires |f| == 4
    ensures NotPositive(f) <==> AtMostZero(ReadBinary32(f))
  {
    ReadFrom(f);
    var v := BeValue(f);
    BinaryFields(v);
    var x := ReadBinary32(f);
    if x.Finite? {
      SignOfProduct(if x.negative then -(x.significand as real) else x.significand as real, PowerOfTwo(x.exponent));
    }
  }

  lemma BinaryFields(v: nat)
    requires v < 0x1_0000_0000
    ensures var s, e, m := v / 0x8000_0000 % 2, v / 0x80_0000 % 256, v % 0x80_0000;
            s < 2 && v == s * 0x8000_0000 + e * 0x80_0000 + m && v % 0x8000_0000 == e * 0x80_0000 + m
  {
  }

  /* ---------- extended communities ---------- */

  // The actions of section 7 of RFC 8955 and their relatives, with every octet that is carried;
  // Unlisted is any other type.
  datatype WireAction =
    | RateBytes(asn: nat, rate: Bytes)
    | RatePackets(asn: nat, rate: Bytes)
    | Traffic(spare: Bytes, bits: byte)
    | RedirectAs2(asn: nat, value: nat)
    | RedirectIp(address: Bytes, value: nat)
    | RedirectAs4(asn: nat, value: nat)
    | Marking(spare: Bytes, dscp: byte)
    | ToIp(address: Bytes, flags: nat)
    | ToHop(sub: byte, spare: Bytes)
    | JuniperToHop(spare: Bytes)
    | Unlisted(kind: byte, sub: byte, rest: Bytes)

  predicate Listed(kind: byte, sub: byte) {
    || kind == 0x08
    || (kind == 0x01 && sub == 0x0c)
    || ((kind == 0x81 || kind == 0x82) && sub == 0x08)
    || (kind == 0x80 && (0x06 <= sub <= 0x09 || sub == 0x0b || sub == 0x0c))
  }

  predicate ValidAction(a: WireAction) {
    match a
    case RateBytes(asn, rate) => Fits16(asn) && |rate| == 4
    case RatePackets(asn, rate) => Fits16(asn) && |rate| == 4
    case Traffic(spare, _) => |spare| == 5
    case RedirectAs2(asn, value) => Fits16(asn) && Fits32(value)
    case RedirectIp(address, value) => |address| == 4 && Fits16(value)
    case RedirectAs4(asn, value) => Fits32(asn) && Fits16(value)
    case Marking(spare, _) => |spare| == 5
    case ToIp(address, flags) => |address| == 4 && Fits16(flags)
    case ToHop(_, spare) => |spare| == 6
    case JuniperToHop(spare) => |spare| == 6
    case Unlisted(kind, sub, rest) => !Listed(kind, sub) && |rest| == 6
  }

  function EncodeAction(a: WireAction): (c: Bytes)
    requires ValidAction(a)
    ensures |c| == 8
  {
    match a
    case RateBytes(asn, rate) => [0x80, 0x06] + (ToBe(asn, 2) + rate)
    case RatePackets(asn, rate) => [0x80, 0x0c] + (ToBe(asn, 2) + rate)
    case Traffic(spare, flags) => [0x80, 0x07] + (spare + [flags])
    case RedirectAs2(asn, value) => [0x80, 0x08] + (ToBe(asn, 2) + ToBe(value, 4))
    case RedirectIp(address, value) => [0x81, 0x08] + (address + ToBe(value, 2))
    case RedirectAs4(asn, value) => [0x82, 0x08] + (ToBe(asn, 4) + ToBe(value, 2))
    case Marking(spare, dscp) => [0x80, 0x09] + (spare + [dscp])
    case ToIp(address, flags) => [0x01, 0x0c] + (address + ToBe(flags, 2))
    case ToHop(sub, spare) => [0x08, sub] + spare
    case JuniperToHop(spare) => [0x80, 0x0b] + spare
    case Unlisted(kind, sub, rest) => [kind, sub] + rest
  }

  predicate IsZero(address: Bytes) {
    forall i | 0 <= i < |address| :: address[i] == 0
  }

  // A redirection to an address; the low flag bit asks for a copy, the others are noted, and the
  // zero address stands for the next hop.
  function ShownRedirect(family: nat, address: Bytes, flags: nat): Action {
    var notes := if flags <= 1 then None else Some(flags);
    if IsZero(address) then ToNextHop(Bit(flags, 0), notes)
    else ToAddress(Bit(flags, 0), family, NextHop(address), notes)
  }

  function ShownAction(a: WireAction): Action
    requires ValidAction(a)
  {
    match a
    case RateBytes(_, rate) => if AtMostZero(ReadBinary32(rate)) then Discard else RateLimitBits(rate)
    case RatePackets(_, rate) => if AtMostZero(ReadBinary32(rate)) then DiscardPackets else RateLimitPackets(rate)
    case Traffic(_, flags) => TrafficAction(Bit(flags, 1), Bit(flags, 0))
    case RedirectAs2(asn, value) => RtRedirect(asn, value)
    case RedirectIp(address, value) => RtRedirectAddress(address, value)
    case RedirectAs4(asn, value) => RtRedirect(asn, value)
    case Marking(_, dscp) => MarkDscp(Low(dscp, 6))
    case ToIp(address, flags) => ShownRedirect(4, address, flags)
    case ToHop(_, _) => ToNextHop(false, None)
    case JuniperToHop(_) => JuniperToNextHop(HexText(EncodeAction(a)))
    case Unlisted(kind, _, _) =>
      if 0x80 <= kind <= 0x82 then UnknownFlowSpec(HexText(EncodeAction(a)))
      else UnknownExtended(HexText(EncodeAction(a)))
  }

  /* ---------- decoding inverts encoding ---------- */

  lemma TwoFields(t: byte, s: byte, a: Bytes, b: Bytes)
    requires |a| + |b| == 6
    ensures var c := [t, s] + (a + b);
            && |c| == 8 && c[0] == t && c[1] == s && c[2..2 + |a|] == a && c[2 + |a|..8] == b
            && (|b| == 1 ==> c[7] == b[0])
  {
    var c := [t, s] + (a + b);
    assert c[2..] == a + b;
    assert c[2..2 + |a|] == (a + b)[..|a|] && c[2 + |a|..8] == (a + b)[|a|..];
    if |b| == 1 {
      assert c[7] == (a + b)[5];
    }
  }

  lemma LowFlags(b: nat)
    ensures (And(b, 1) != 0) == Bit(b, 0) && (And(b, 2) != 0) == Bit(b, 1) && And(b, 0x3f) == Low(b, 6)
  {
    assert Pow2(0) == 1 && Pow2(1) == 2 && Pow2(6) == 64;
    AndBit(b, 0);
    AndBit(b, 1);
    AndLow(b, 6);
  }

  lemma RedirectShown(family: nat, address: Bytes, flags: nat)
    ensures RedirectToAddress(family, address, flags) == ShownRedirect(family, address, flags)
  {
    LowFlags(flags);
  }

  lemma NumberedComplete(a: WireAction)
    requires ValidAction(a) && (a.RedirectAs2? || a.RedirectIp? || a.RedirectAs4? || a.ToIp?)
    ensures ExtendedCommunity(EncodeAction(a)) == ShownAction(a)
  {
    hide BeValue, ToBe, HexText, And, Bit, Low, NotPositive, AtMostZero, ReadBinary32, RedirectToAddress, ShownRedirect;
    match a
    case RedirectAs2(asn, value) =>
      TwoFields(0x80, 0x08, ToBe(asn, 2), ToBe(value, 4));
      ReadBack(asn);
      ReadBack(value);
    case RedirectIp(address, value) =>
      TwoFields(0x81, 0x08, address, ToBe(value, 2));
      ReadBack(value);
    case RedirectAs4(asn, value) =>
      TwoFields(0x82, 0x08, ToBe(asn, 4), ToBe(value, 2));
      ReadBack(asn);
      ReadBack(value);
    case ToIp(address, flags) =>
      TwoFields(0x01, 0x0c, address, ToBe(flags, 2));
      ReadBack(flags);
      RedirectShown(4, address, flags);
  }

  lemma FlaggedComplete(a: WireAction)
    requires ValidAction(a) && (a.RateBytes? || a.RatePackets? || a.Traffic? || a.Marking?)
    ensures ExtendedCommunity(EncodeAction(a)) == ShownAction(a)
  {
    hide BeValue, ToBe, HexText, And, Bit, Low, NotPositive, AtMostZero, ReadBinary32, RedirectToAddress, ShownRedirect;
    match a
    case RateBytes(asn, rate) =>
      TwoFields(0x80, 0x06, ToBe(asn, 2), rate);
      RateComparison(rate);
    case RatePackets(asn, rate) =>
      TwoFields(0x80, 0x0c, ToBe(asn, 2), rate);
      RateComparison(rate);
    case Traffic(spare, flags) =>
      TwoFields(0x80, 0x07, spare, [flags]);
      LowFlags(flags);
    case Marking(spare, dscp) =>
      TwoFields(0x80, 0x09, spare, [dscp]);
      LowFlags(dscp);
  }

  lemma RemainingComplete(a: WireAction)
    requires ValidAction(a) && (a.ToHop? || a.JuniperToHop? || a.Unlisted?)
    ensures ExtendedCommunity(EncodeAction(a)) == ShownAction(a)
  {
    hide BeValue, ToBe, HexText, And, Bit, Low, NotPositive, AtMostZero, ReadBinary32, RedirectToAddress, ShownRedirect;
  }

  // Every action is decoded to what it means.
  lemma ActionComplete(a: WireAction)
    requires ValidAction(a)
    ensures ExtendedCommunity(EncodeAction(a)) == ShownAction(a)
  {
    hide ExtendedCommunity, EncodeAction, ShownAction, ValidAction;
    if a.RedirectAs2? || a.RedirectIp? || a.RedirectAs4? || a.ToIp? {
      NumberedComplete(a);
    } else if a.RateBytes? || a.RatePackets? || a.Traffic? || a.Marking? {
      FlaggedComplete(a);
    } else {
      RemainingComplete(a);
    }
  }

  // Every eight octets are an action.
  function ActionIn(c: Bytes): WireAction
    requires |c| == 8
  {
    var (t, s) := (c[0], c[1]);
    if !Listed(t, s) then Unlisted(t, s, c[2..])
    else if t == 0x08 then ToHop(s, c[2..])
    else if t == 0x01 then ToIp(c[2..6], BeValue(c[6..]))
    else if t == 0x81 then RedirectIp(c[2..6], BeValue(c[6..]))
    else if t == 0x82 then RedirectAs4(BeValue(c[2..6]), BeValue(c[6..]))
    else if s == 0x06 then RateBytes(BeValue(c[2..4]), c[4..])
    else if s == 0x0c then RatePackets(BeValue(c[2..4]), c[4..])
    else if s == 0x07 then Traffic(c[2..7], c[7])
    else if s == 0x08 then RedirectAs2(BeValue(c[2..4]), BeValue(c[4..]))
    else if s == 0x09 then Marking(c[2..7], c[7])
    else JuniperToHop(c[2..])
  }

  lemma ActionSound(c: Bytes)
    requires |c| == 8
    ensures ValidAction(ActionIn(c)) && EncodeAction(ActionIn(c)) == c
    ensures ExtendedCommunity(c) == ShownAction(ActionIn(c))
  {
    hide BeValue, ToBe, ShownAction, ExtendedCommunity;
    ReadFrom(c[2..4]);
    ReadFrom(c[4..]);
    ReadFrom(c[2..6]);
    ReadFrom(c[6..]);
    Halves(c);
    ActionComplete(ActionIn(c));
  }

  lemma Halves(c: Bytes)
    requires |c| == 8
    ensures c == [c[0], c[1]] + c[2..] == [c[0], c[1]] + (c[2..4] + c[4..]) == [c[0], c[1]] + (c[2..6] + c[6..])
    ensures c == [c[0], c[1]] + (c[2..7] + [c[7]])
  {
  }

  /* ---------- when two are shown alike ---------- */

  // Rates that are both not positive, or the same octets.
  predicate SameRate(f: Bytes, g: Bytes)
    requires |f| == 4 && |g| == 4
  {
    f == g || (AtMostZero(ReadBinary32(f)) && AtMostZero(ReadBinary32(g)))
  }

  // What the shown form does not tell: the AS number beside a rate, how far a rate is below zero,
  // spare octets, the width of a redirect's AS number, and the type of a plain redirect to the next
  // hop. A rate above zero is shown by its octets here; the program prints it without decimals, which
  // loses more.
  predicate SameAction(a: WireAction, b: WireAction)
    requires ValidAction(a) && ValidAction(b)
  {
    match (a, b)
    case (RateBytes(_, f), RateBytes(_, g)) => SameRate(f, g)
    case (RatePackets(_, f), RatePackets(_, g)) => SameRate(f, g)
    case (Traffic(_, x), Traffic(_, y)) => Low(x, 2) == Low(y, 2)
    case (Marking(_, x), Marking(_, y)) => Low(x, 6) == Low(y, 6)
    case (RedirectAs2(m, v), RedirectAs4(n, w)) => m == n && v == w
    case (RedirectAs4(m, v), RedirectAs2(n, w)) => m == n && v == w
    case (ToIp(x, v), ToIp(y, w)) => v == w && x == y
    case (ToIp(x, v), ToHop(_, _)) => IsZero(x) && v == 0
    case (ToHop(_, _), ToIp(y, w)) => IsZero(y) && w == 0
    case (ToHop(_, _), ToHop(_, _)) => true
    case _ => a == b
  }

  lemma TwoLowBits(x: nat, y: nat)
    ensures Low(x, 2) == Low(y, 2) <==> Bit(x, 0) == Bit(y, 0) && Bit(x, 1) == Bit(y, 1)
  {
    assert Pow2(0) == 1 && Pow2(1) == 2;
    LowBit(x, 0);
    LowBit(x, 1);
    LowBit(y, 0);
    LowBit(y, 1);
  }

  lemma HexTells(x: Bytes, y: Bytes)
    ensures HexText(x) == HexText(y) <==> x == y
  {
    HexRoundTrip(x);
    HexRoundTrip(y);
  }

  lemma {:induction false} ZeroIsOne(x: Bytes, y: Bytes)
    requires |x| == |y| && IsZero(x) && IsZero(y)
    ensures x == y
  {
  }

  lemma RedirectsTell(family: nat, x: Bytes, v: nat, y: Bytes, w: nat)
    requires |x| == |y| && (|x| == 4 || |x| == 16)
    ensures ShownRedirect(family, x, v) == ShownRedirect(family, y, w) <==> x == y && v == w
    ensures ShownRedirect(family, x, v) == ToNextHop(false, None) <==> IsZero(x) && v == 0
  {
    assert Bit(0, 0) == false && Bit(1, 0) == true;
    if IsZero(x) && IsZero(y) {
      ZeroIsOne(x, y);
    }
  }

  lemma EncodedTells(a: WireAction, b: WireAction)
    requires ValidAction(a) && ValidAction(b)
    requires (a.JuniperToHop? && b.JuniperToHop?) || (a.Unlisted? && b.Unlisted?)
    ensures EncodeAction(a) == EncodeAction(b) <==> a == b
  {
    var x, y := EncodeAction(a), EncodeAction(b);
    if x == y {
      assert x[2..] == y[2..];
      if a.Unlisted? {
        assert x[0] == y[0] && x[1] == y[1];
      }
    }
  }

  predicate IsRaw(a: WireAction) {
    a.JuniperToHop? || a.Unlisted?
  }

  lemma RawKernel(a: WireAction, b: WireAction)
    requires ValidAction(a) && ValidAction(b) && (IsRaw(a) || IsRaw(b))
    ensures ShownAction(a) == ShownAction(b) <==> SameAction(a, b)
  {
    hide HexText, Bit, Low, AtMostZero, ReadBinary32, ShownRedirect, EncodeAction, IsZero, Listed;
    if a.ToIp? {
      RedirectKinds(4, a.address, a.flags);
    }
    if b.ToIp? {
      RedirectKinds(4, b.address, b.flags);
    }
    if IsRaw(a) && IsRaw(b) && a.JuniperToHop? == b.JuniperToHop? {
      HexTells(EncodeAction(a), EncodeAction(b));
      EncodedTells(a, b);
    }
  }

  lemma RedirectKernel(a: WireAction, b: WireAction)
    requires ValidAction(a) && ValidAction(b) && !IsRaw(a) && !IsRaw(b) && (a.ToIp? || b.ToIp?)
    ensures ShownAction(a) == ShownAction(b) <==> SameAction(a, b)
  {
    hide HexText, Bit, Low, AtMostZero, ReadBinary32, ShownRedirect, EncodeAction, IsZero, Listed;
    var x := if a.ToIp? then a else b;
    RedirectKinds(4, x.address, x.flags);
    RedirectsTell(4, x.address, x.flags, x.address, x.flags);
    if a.ToIp? && b.ToIp? {
      RedirectsTell(4, a.address, a.flags, b.address, b.flags);
    }
  }

  // Two actions are shown alike exactly when they differ at most in that.
  lemma ShownActionKernel(a: WireAction, b: WireAction)
    requires ValidAction(a) && ValidAction(b)
    ensures ShownAction(a) == ShownAction(b) <==> SameAction(a, b)
  {
    hide HexText, Bit, Low, AtMostZero, ReadBinary32, ShownRedirect, EncodeAction, IsZero, Listed;
    if IsRaw(a) || IsRaw(b) {
      RawKernel(a, b);
    } else if a.ToIp? || b.ToIp? {
      RedirectKernel(a, b);
    } else if a.Traffic? && b.Traffic? {
      TwoLowBits(a.bits, b.bits);
    }
  }

  lemma RedirectKinds(family: nat, x: Bytes, v: nat)
    ensures ShownRedirect(family, x, v).ToNextHop? || ShownRedirect(family, x, v).ToAddress?
  {
  }

  /* ---------- IPv6 extended communities ---------- */

  datatype WireAction6 =
    | ToIp6(address: Bytes, flags: nat)
    | RedirectIp6(address: Bytes, value: nat)
    | Unlisted6(kind: nat, rest: Bytes)

  predicate ValidAction6(a: WireAction6) {
    match a
    case ToIp6(address, flags) => |address| == 16 && Fits16(flags)
    case RedirectIp6(address, value) => |address| == 16 && Fits16(value)
    case Unlisted6(kind, rest) => Fits16(kind) && kind != 0x0c && kind != 0x0d && |rest| == 18
  }

  function EncodeAction6(a: WireAction6): (c: Bytes)
    requires ValidAction6(a)
    ensures |c| == 20
  {
    match a
    case ToIp6(address, flags) => ToBe(0x0c, 2) + (address + ToBe(flags, 2))
    case RedirectIp6(address, value) => ToBe(0x0d, 2) + (address + ToBe(value, 2))
    case Unlisted6(kind, rest) => ToBe(kind, 2) + rest
  }

  function ShownAction6(a: WireAction6): Action
    requires ValidAction6(a)
  {
    match a
    case ToIp6(address, flags) => ShownRedirect(6, address, flags)
    case RedirectIp6(address, value) => RtRedirectAddress(address, value)
    case Unlisted6(kind, _) =>
      if kind == 0x0e || kind == 0x0f then UnknownFlowSpec6(HexText(EncodeAction6(a)))
      else UnknownExtended6(HexText(EncodeAction6(a)))
  }

  lemma ThreeFields(kind: nat, a: Bytes, b: Bytes)
    requires Fits16(kind) && |a| == 16 && |b| == 2
    ensures var c := ToBe(kind, 2) + (a + b);
            |c| == 20 && BeValue(c[..2]) == kind && c[2..18] == a && c[18..] == b
  {
    hide BeValue, ToBe;
    ReadBack(kind);
    var c := ToBe(kind, 2) + (a + b);
    assert c[..2] == ToBe(kind, 2) && c[2..] == a + b;
    assert c[2..18] == (a + b)[..16] && c[18..] == (a + b)[16..];
  }

  lemma Action6Complete(a: WireAction6)
    requires ValidAction6(a)
    ensures ExtendedCommunity6(EncodeAction6(a)) == ShownAction6(a)
  {
    hide BeValue, ToBe, HexText, RedirectToAddress, ShownRedirect;
    match a
    case ToIp6(address, flags) =>
      ThreeFields(0x0c, address, ToBe(flags, 2));
      ReadBack(flags);
      RedirectShown(6, address, flags);
    case RedirectIp6(address, value) =>
      ThreeFields(0x0d, address, ToBe(value, 2));
      ReadBack(value);
    case Unlisted6(kind, rest) =>
      ReadBack(kind);
      assert EncodeAction6(a)[..2] == ToBe(kind, 2);
  }

  // Every twenty octets are an action.
  function Action6In(c: Bytes): WireAction6
    requires |c| == 20
  {
    var kind := BeValue(c[..2]);
    if kind == 0x0c then ToIp6(c[2..18], BeValue(c[18..]))
    else if kind == 0x0d then RedirectIp6(c[2..18], BeValue(c[18..]))
    else Unlisted6(kind, c[2..])
  }

  lemma Action6Sound(c: Bytes)
    requires |c| == 20
    ensures ValidAction6(Action6In(c)) && EncodeAction6(Action6In(c)) == c
    ensures ExtendedCommunity6(c) == ShownAction6(Action6In(c))
  {
    hide BeValue, ToBe, ShownAction6, ExtendedCommunity6;
    ReadFrom(c[..2]);
    ReadFrom(c[18..]);
    assert c == c[..2] + c[2..] == c[..2] + (c[2..18] + c[18..]);
    Action6Complete(Action6In(c));
  }

  // Nothing of these is lost: two are shown alike only if they are the same.
  lemma ShownAction6Kernel(a: WireAction6, b: WireAction6)
    requires ValidAction6(a) && ValidAction6(b)
    ensures ShownAction6(a) == ShownAction6(b) <==> a == b
  {
    hide BeValue, ToBe, HexText, ShownRedirect, EncodeAction6;
    if a.ToIp6? {
      RedirectKinds(6, a.address, a.flags);
    }
    if b.ToIp6? {
      RedirectKinds(6, b.address, b.flags);
    }
    if a.ToIp6? && b.ToIp6? {
      RedirectsTell(6, a.address, a.flags, b.address, b.flags);
    }
    if a.Unlisted6? && b.Unlisted6? {
      HexTells(EncodeAction6(a), EncodeAction6(b));
      Encoded6Tells(a, b);
    }
  }

  lemma Encoded6Tells(a: WireAction6, b: WireAction6)
    requires ValidAction6(a) && ValidAction6(b) && a.Unlisted6? && b.Unlisted6?
    ensures EncodeAction6(a) == EncodeAction6(b) <==> a == b
  {
    hide BeValue, ToBe;
    var x, y := EncodeAction6(a), EncodeAction6(b);
    ReadBack(a.kind);
    ReadBack(b.kind);
    assert x[..2] == ToBe(a.kind, 2) && x[2..] == a.rest;
    assert y[..2] == ToBe(b.kind, 2) && y[2..] == b.rest;
  }

  /* ---------- communities ---------- */

  function EncodeLarge(c: Community): (d: Bytes)
    requires c.Large?
    ensures |d| == 12
  {
    ToBe(c.admin, 4) + (ToBe(c.first, 4) + ToBe(c.second, 4))
  }

  predicate ValidLarge(c: Community) {
    c.Large? && Fits32(c.admin) && Fits32(c.first) && Fits32(c.second)
  }

  lemma LargeComplete(c: Community)
    requires ValidLarge(c)
    ensures LargeCommunity(EncodeLarge(c)) == c
  {
    hide BeValue, ToBe;
    var d := EncodeLarge(c);
    ReadBack(c.admin);
    ReadBack(c.first);
    ReadBack(c.second);
    assert d[..4] == ToBe(c.admin, 4) && d[4..] == ToBe(c.first, 4) + ToBe(c.second, 4);
    assert d[4..8] == d[4..][..4] && d[8..] == d[4..][4..];
  }

  lemma LargeSound(d: Bytes)
    requires |d| == 12
    ensures ValidLarge(LargeCommunity(d)) && EncodeLarge(LargeCommunity(d)) == d
  {
    hide BeValue, ToBe;
    ReadFrom(d[..4]);
    ReadFrom(d[4..8]);
    ReadFrom(d[8..]);
    assert d == d[..4] + (d[4..8] + d[8..]);
  }

  predicate ValidStandard(c: Community) {
    c.Standard? && Fits32(c.value)
  }

  lemma StandardComplete(c: Community)
    requires ValidStandard(c)
    ensures StandardCommunity(ToBe(c.value, 4)) == c
  {
    ReadBack(c.value);
  }

  lemma StandardSound(d: Bytes)
    requires |d| == 4
    ensures ValidStandard(StandardCommunity(d)) && ToBe(StandardCommunity(d).value, 4) == d
  {
    ReadFrom(d);
  }
}
