/** Address prefixes: masking, next hops and the unicast NLRI list. */
module Prefixes {
  import opened Base
  import opened Bits
  import opened Octets

  const AFI_IPV4: nat := 1
  const AFI_IPV6: nat := 2

  // The text "address/len" of a prefix; the address has 4 or 16 octets.
  datatype Prefix = Prefix(afi: nat, address: Bytes, len: nat)

  // The texts a next hop can be shown as, by the number of octets it came in.
  datatype Hop =
    | NoHop
    | Hop4(octets: Bytes)
    | Hop6(octets: Bytes)
    | Hop6Pair(global: Bytes, linkLocal: Bytes)
    | HopHex(text: string)

  datatype UnicastRoute = UnicastRoute(prefix: Prefix, nextHop: Option<Hop>)

  function NextHop(data: Bytes): Hop {
    if |data| == 0 then NoHop
    else if |data| == 4 then Hop4(data)
    else if |data| == 16 then Hop6(data)
    else if |data| == 32 then Hop6Pair(data[..16], data[16..])
    else HopHex(HexText(data))
  }

  // The octets a shown next hop was read from.
  function HopOctets(h: Hop): seq<nat> {
    match h
    case NoHop => []
    case Hop4(octets) => octets
    case Hop6(octets) => octets
    case Hop6Pair(global, linkLocal) => global + linkLocal
    case HopHex(text) => HexDecode(text)
  }

  // No next hop is shown as another: the length says how it is read, a pair has the global address
  // first, and nothing of it is lost.
  lemma NextHopTells(data: Bytes)
    ensures HopOctets(NextHop(data)) == data
    ensures NextHop(data) == NoHop <==> data == []
    ensures NextHop(data).Hop4? <==> |data| == 4
    ensures NextHop(data).Hop6? <==> |data| == 16
    ensures NextHop(data).Hop6Pair? <==> |data| == 32
    ensures NextHop(data).Hop6Pair? ==> |NextHop(data).global| == 16
  {
    HexRoundTrip(data);
  }

  // Octets needed for a number of bits.
  function Octets8(bits: nat): nat {
    (bits + 7) / 8
  }

  function AddressSize(afi: nat): nat {
    if afi == AFI_IPV6 then 16 else 4
  }

  function MaxBits(afi: nat): nat {
    if afi == AFI_IPV6 then 128 else 32
  }

  /* ---------- masking ---------- */

  // Bit j of an address, counted from the most significant end.
  predicate BitAt(address: Bytes, j: nat)
    requires j < 8 * |address|
  {
    Bit(address[j / 8], 7 - j % 8)
  }

  function MaskedOctet(b: byte, i: nat, len: nat): byte {
    if 8 * (i + 1) <= len then b
    else if len <= 8 * i then 0
    else ClearLow(b, 8 * (i + 1) - len)
  }

  // The address with every octet past the first len bits cleared.
  function Masked(address: Bytes, len: nat): (r: Bytes)
    ensures |r| == |address|
  {
    seq(|address|, i requires 0 <= i < |address| => MaskedOctet(address[i], i, len))
  }

  method MaskPrefix(address: array<byte>, len: nat)
    requires len <= 8 * address.Length
    modifies address
    ensures address[..] == Masked(old(address[..]), len)
  {
    var fullBytes, remainingBits := len / 8, len % 8;
    if remainingBits != 0 && fullBytes < address.Length {
      MaskByte(address[fullBytes], 8 - remainingBits);
      address[fullBytes] := And(address[fullBytes], Shl(0xff, 8 - remainingBits, 256));
    }
    var zeroFrom := fullBytes + (if remainingBits != 0 then 1 else 0);
    forall i | zeroFrom <= i < address.Length {
      address[i] := 0;
    }
  }

  lemma MaskByte(b: byte, k: nat)
    requires k < 8
    ensures And(b, Shl(0xff, k, 256)) == ClearLow(b, k)
  {
    assert Pow2(8) == 256;
    ShlOnes(k, 8);
    AndHigh(b, k, 8);
  }

  // Masking keeps exactly the first len bits.
  lemma MaskedBits(address: Bytes, len: nat, j: nat)
    requires j < 8 * |address|
    ensures BitAt(Masked(address, len), j) <==> j < len && BitAt(address, j)
  {
    var i, p := j / 8, 7 - j % 8;
    if len <= 8 * i {
      assert Masked(address, len)[i] == 0;
      ZeroBits(p);
    } else if len < 8 * (i + 1) {
      ClearedBit(address[i], 8 * (i + 1) - len, p);
    }
  }

  // Addresses of one size are equal when all their bits are.
  lemma SameBits(a: Bytes, b: Bytes)
    requires |a| == |b|
    requires forall j: nat | j < 8 * |a| :: BitAt(a, j) == BitAt(b, j)
    ensures a == b
  {
    forall i | 0 <= i < |a| ensures a[i] == b[i] {
      forall p | 0 <= p < 8 ensures Bit(a[i], p) == Bit(b[i], p) {
        assert BitAt(a, 8 * i + 7 - p) == BitAt(b, 8 * i + 7 - p);
      }
      assert Pow2(8) == 256;
      SameBitsBelow(a[i], b[i], 8);
    }
  }

  // Two addresses agree in their first len bits.
  predicate Agree(a: Bytes, b: Bytes, len: nat)
    requires |a| == |b|
  {
    forall j: nat | j < len && j < 8 * |a| :: BitAt(a, j) == BitAt(b, j)
  }

  // The masked form is a canonical representative: equal exactly when the first len bits are.
  lemma MaskedCanonical(a: Bytes, b: Bytes, len: nat)
    requires |a| == |b|
    ensures Masked(a, len) == Masked(b, len) <==> Agree(a, b, len)
  {
    forall j: nat | j < 8 * |a|
      ensures BitAt(Masked(a, len), j) <==> j < len && BitAt(a, j)
      ensures BitAt(Masked(b, len), j) <==> j < len && BitAt(b, j)
    {
      MaskedBits(a, len, j);
      MaskedBits(b, len, j);
    }
    if Agree(a, b, len) {
      SameBits(Masked(a, len), Masked(b, len));
    }
  }

  lemma MaskedIdempotent(a: Bytes, len: nat)
    ensures Masked(Masked(a, len), len) == Masked(a, len)
  {
    forall j: nat | j < len && j < 8 * |a| ensures BitAt(Masked(a, len), j) == BitAt(a, j) {
      MaskedBits(a, len, j);
    }
    MaskedCanonical(Masked(a, len), a, len);
  }

  /* ---------- prefix text ---------- */

  // The octets followed by zeros up to the given size.
  function Padded(raw: Bytes, size: nat): (r: Bytes)
    requires |raw| <= size
    ensures |r| == size
  {
    raw + seq(size - |raw|, _ => 0)
  }

  function PrefixText(raw: Bytes, len: nat, afi: nat, mask: bool): Option<Prefix>
    requires |raw| <= AddressSize(afi)
  {
    if afi != AFI_IPV4 && afi != AFI_IPV6 then None
    else
      var buf := Padded(raw, AddressSize(afi));
      Some(Prefix(afi, if mask then Masked(buf, len) else buf, len))
  }

  method PrefixString(raw: Bytes, len: nat, afi: nat, mask: bool) returns (r: Option<Prefix>)
    requires |raw| <= AddressSize(afi) && len <= MaxBits(afi)
    ensures r == PrefixText(raw, len, afi, mask)
  {
    if afi != AFI_IPV4 && afi != AFI_IPV6 {
      return None;
    }
    var buf := new byte[AddressSize(afi)](_ => 0);
    forall i | 0 <= i < |raw| {
      buf[i] := raw[i];
    }
    assert buf[..] == Padded(raw, AddressSize(afi));
    if mask {
      MaskPrefix(buf, len);
    }
    r := Some(Prefix(afi, buf[..], len));
  }

  /* ---------- unicast NLRI ---------- */

  function Cons<T>(head: T, tail: Result<seq<T>>): Result<seq<T>> {
    match tail
    case Ok(rest) => Ok([head] + rest)
    case Err(e) => Err(e)
  }

  function Join<T>(front: seq<T>, tail: Result<seq<T>>): Result<seq<T>> {
    match tail
    case Ok(rest) => Ok(front + rest)
    case Err(e) => Err(e)
  }

  lemma JoinNothing<T>(tail: Result<seq<T>>)
    ensures Join([], tail) == tail
    ensures tail.Ok? && tail.value == [] ==> forall front: seq<T> :: Join(front, tail) == Ok(front)
  {
    if tail.Ok? {
      assert [] + tail.value == tail.value;
      assert tail.value == [] ==> forall front: seq<T> :: front + tail.value == front;
    }
  }

  lemma JoinCons<T>(front: seq<T>, x: T, tail: Result<seq<T>>)
    ensures Join(front, Cons(x, tail)) == Join(front + [x], tail)
  {
    if tail.Ok? {
      assert front + ([x] + tail.value) == (front + [x]) + tail.value;
    }
  }

  // The meaning of an NLRI list: one route per length-prefixed record, or the first fault met.
  function UnicastRoutes(data: Bytes, afi: nat, nextHop: Option<Hop>): Result<seq<UnicastRoute>>
    decreases |data|
  {
    if data == [] then Ok([])
    else
      var (head, rest) := Take(data, 1).value;
      var bits := head[0];
      if bits > MaxBits(afi) then Err(InvalidPrefixLength)
      else
        var (raw, tail) :- Take(rest, Octets8(bits));
        match PrefixText(raw, bits, afi, true)
        case None => Err(InvalidPrefix)
        case Some(prefix) => Cons(UnicastRoute(prefix, nextHop), UnicastRoutes(tail, afi, nextHop))
  }

  method Unicast(data: Bytes, afi: nat, nextHop: Option<Hop>) returns (r: Result<seq<UnicastRoute>>)
    ensures r == UnicastRoutes(data, afi, nextHop)
  {
    var routes := [];
    var rest := data;
    JoinNothing(UnicastRoutes(data, afi, nextHop));
    while rest != []
      invariant UnicastRoutes(data, afi, nextHop) == Join(routes, UnicastRoutes(rest, afi, nextHop))
      decreases |rest|
    {
      var head := Take(rest, 1).value;
      var bits := head.0[0];
      if bits > MaxBits(afi) {
        return Err(InvalidPrefixLength);
      }
      var body :- Take(head.1, Octets8(bits));
      var (raw, tail) := body;
      var prefix := PrefixString(raw, bits, afi, true);
      if prefix.None? {
        return Err(InvalidPrefix);
      }
      JoinCons(routes, UnicastRoute(prefix.value, nextHop), UnicastRoutes(tail, afi, nextHop));
      routes := routes + [UnicastRoute(prefix.value, nextHop)];
      rest := tail;
    }
    assert routes + [] == routes;
    return Ok(routes);
  }

  // A prefix as it stands on the wire: a length and just enough octets to hold it.
  datatype WirePrefix = WirePrefix(len: nat, raw: Bytes)

  // No longer than the family's addresses, in as few octets as hold it.
  predicate ValidWire(p: WirePrefix, afi: nat) {
    p.len <= 8 * AddressSize(afi) && p.len <= 8 * |p.raw| < p.len + 8
  }

  predicate ValidWires(ps: seq<WirePrefix>, afi: nat) {
    forall i | 0 <= i < |ps| :: ValidWire(ps[i], afi)
  }

  function EncodeWire(ps: seq<WirePrefix>, afi: nat): Bytes
    requires ValidWires(ps, afi)
  {
    if ps == [] then [] else [ps[0].len] + ps[0].raw + EncodeWire(ps[1..], afi)
  }

  // The canonical prefix a wire record stands for.
  function Canonical(p: WirePrefix, afi: nat): Prefix
    requires ValidWire(p, afi)
  {
    Prefix(afi, Masked(Padded(p.raw, AddressSize(afi)), p.len), p.len)
  }

  function RoutesOf(ps: seq<WirePrefix>, afi: nat, nextHop: Option<Hop>): (r: seq<UnicastRoute>)
    requires ValidWires(ps, afi)
    ensures |r| == |ps|
    ensures forall i | 0 <= i < |ps| :: r[i] == UnicastRoute(Canonical(ps[i], afi), nextHop)
  {
    if ps == [] then []
    else [UnicastRoute(Canonical(ps[0], afi), nextHop)] + RoutesOf(ps[1..], afi, nextHop)
  }

  // Every list of valid records is accepted, in full and in order.
  lemma {:induction false} UnicastComplete(ps: seq<WirePrefix>, afi: nat, nextHop: Option<Hop>)
    requires afi == AFI_IPV4 || afi == AFI_IPV6
    requires ValidWires(ps, afi)
    ensures UnicastRoutes(EncodeWire(ps, afi), afi, nextHop) == Ok(RoutesOf(ps, afi, nextHop))
  {
    if ps != [] {
      var tail := EncodeWire(ps[1..], afi);
      assert EncodeWire(ps, afi) == [ps[0].len] + (ps[0].raw + tail);
      TakeOne(ps[0].len, ps[0].raw + tail);
      TakeSplit(ps[0].raw, tail);
      UnicastComplete(ps[1..], afi, nextHop);
    }
  }

  lemma WiresCons(p: WirePrefix, others: seq<WirePrefix>, afi: nat, nextHop: Option<Hop>)
    requires ValidWire(p, afi) && ValidWires(others, afi)
    ensures ValidWires([p] + others, afi)
    ensures EncodeWire([p] + others, afi) == [p.len] + p.raw + EncodeWire(others, afi)
    ensures RoutesOf([p] + others, afi, nextHop)
         == [UnicastRoute(Canonical(p, afi), nextHop)] + RoutesOf(others, afi, nextHop)
  {
    hide Canonical;
    assert ([p] + others)[1..] == others;
  }

  // Every accepted input is such a list, with nothing left over.
  lemma {:induction false} UnicastSound(data: Bytes, afi: nat, nextHop: Option<Hop>) returns (ps: seq<WirePrefix>)
    requires UnicastRoutes(data, afi, nextHop).Ok?
    ensures ValidWires(ps, afi)
    ensures EncodeWire(ps, afi) == data
    ensures UnicastRoutes(data, afi, nextHop).value == RoutesOf(ps, afi, nextHop)
    decreases |data|
  {
    hide EncodeWire, RoutesOf, Padded, Masked;
    if data == [] {
      ps := [];
      NoWires(afi, nextHop);
    } else {
      var bits, rest := data[0], data[1..];
      var raw, tail := rest[..Octets8(bits)], rest[Octets8(bits)..];
      var others := UnicastSound(tail, afi, nextHop);
      ps := [WirePrefix(bits, raw)] + others;
      WiresCons(WirePrefix(bits, raw), others, afi, nextHop);
      assert data == [bits] + raw + tail;
    }
  }

  lemma NoWires(afi: nat, nextHop: Option<Hop>)
    ensures EncodeWire([], afi) == [] && RoutesOf([], afi, nextHop) == []
  {
  }

  predicate SameLeadingBits(p: WirePrefix, q: WirePrefix) {
    p.len == q.len && |p.raw| == |q.raw| && Agree(p.raw, q.raw, p.len)
  }

  // Bits past the prefix length do not matter.
  lemma UnicastIgnoresHostBits(ps: seq<WirePrefix>, qs: seq<WirePrefix>, afi: nat, nextHop: Option<Hop>)
    requires afi == AFI_IPV4 || afi == AFI_IPV6
    requires ValidWires(ps, afi)
    requires ValidWires(qs, afi)
    requires |ps| == |qs|
    requires forall i | 0 <= i < |ps| :: SameLeadingBits(ps[i], qs[i])
    ensures UnicastRoutes(EncodeWire(ps, afi), afi, nextHop) == UnicastRoutes(EncodeWire(qs, afi), afi, nextHop)
  {
    UnicastComplete(ps, afi, nextHop);
    UnicastComplete(qs, afi, nextHop);
    forall i | 0 <= i < |ps| ensures Canonical(ps[i], afi) == Canonical(qs[i], afi) {
      assert SameLeadingBits(ps[i], qs[i]);
      var size := AddressSize(afi);
      PaddedAgree(ps[i].raw, qs[i].raw, ps[i].len, size);
      MaskedCanonical(Padded(ps[i].raw, size), Padded(qs[i].raw, size), ps[i].len);
    }
    assert RoutesOf(ps, afi, nextHop) == RoutesOf(qs, afi, nextHop);
  }

  lemma PaddedAgree(a: Bytes, b: Bytes, len: nat, size: nat)
    requires |a| == |b| <= size && Agree(a, b, len)
    ensures Agree(Padded(a, size), Padded(b, size), len)
  {
    forall j: nat | j < len && j < 8 * size
      ensures BitAt(Padded(a, size), j) == BitAt(Padded(b, size), j)
    {
      if j < 8 * |a| {
        assert BitAt(a, j) == BitAt(b, j);
      }
    }
  }

  // A prefix in the form the decoder produces: right size, nothing set past its length.
  predicate IsCanonical(p: Prefix) {
    && (p.afi == AFI_IPV4 || p.afi == AFI_IPV6)
    && |p.address| == (if p.afi == AFI_IPV4 then 4 else 16)
    && p.len <= 8 * |p.address|
    && Masked(p.address, p.len) == p.address
  }

  // Its shortest wire record.
  function ToWire(p: Prefix): WirePrefix
    requires IsCanonical(p)
  {
    WirePrefix(p.len, p.address[..Octets8(p.len)])
  }

  lemma CanonicalWire(p: Prefix)
    requires IsCanonical(p)
    ensures ValidWire(ToWire(p), p.afi) && Canonical(ToWire(p), p.afi) == p
  {
    var n := Octets8(p.len);
    forall i | n <= i < |p.address| ensures p.address[i] == 0 {
      assert p.address[i] == MaskedOctet(p.address[i], i, p.len);
    }
    assert Padded(p.address[..n], AddressSize(p.afi)) == p.address;
  }

  lemma CanonicalIsCanonical(p: WirePrefix, afi: nat)
    requires afi == AFI_IPV4 || afi == AFI_IPV6
    requires ValidWire(p, afi)
    ensures IsCanonical(Canonical(p, afi))
  {
    MaskedIdempotent(Padded(p.raw, AddressSize(afi)), p.len);
  }

  // Every prefix the decoder reports is canonical.
  lemma UnicastCanonical(data: Bytes, afi: nat, nextHop: Option<Hop>)
    requires afi == AFI_IPV4 || afi == AFI_IPV6
    requires UnicastRoutes(data, afi, nextHop).Ok?
    ensures forall r | r in UnicastRoutes(data, afi, nextHop).value ::
              IsCanonical(r.prefix) && r.prefix.afi == afi && r.nextHop == nextHop
  {
    var ps := UnicastSound(data, afi, nextHop);
    forall i | 0 <= i < |ps| ensures IsCanonical(Canonical(ps[i], afi)) {
      CanonicalIsCanonical(ps[i], afi);
    }
  }

  function ToWires(ps: seq<Prefix>): seq<WirePrefix>
    requires forall p | p in ps :: IsCanonical(p)
  {
    seq(|ps|, i requires 0 <= i < |ps| => ToWire(ps[i]))
  }

  // Decoding the encoding of a list of canonical prefixes gives back that list.
  lemma UnicastRoundTrip(ps: seq<Prefix>, afi: nat, nextHop: Option<Hop>)
    requires forall p | p in ps :: IsCanonical(p) && p.afi == afi
    requires afi == AFI_IPV4 || afi == AFI_IPV6
    ensures ValidWires(ToWires(ps), afi)
    ensures UnicastRoutes(EncodeWire(ToWires(ps), afi), afi, nextHop)
         == Ok(seq(|ps|, i requires 0 <= i < |ps| => UnicastRoute(ps[i], nextHop)))
  {
    var ws := ToWires(ps);
    forall i | 0 <= i < |ps| ensures ValidWire(ws[i], afi) && Canonical(ws[i], afi) == ps[i] {
      CanonicalWire(ps[i]);
    }
    UnicastComplete(ws, afi, nextHop);
    assert RoutesOf(ws, afi, nextHop) == seq(|ps|, i requires 0 <= i < |ps| => UnicastRoute(ps[i], nextHop));
  }
}
