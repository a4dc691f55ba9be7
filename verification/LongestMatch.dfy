/** Longest-prefix match over the stored unicast routes. */
module LongestMatch {
  import opened Base
  import opened Bits
  import opened Octets
  import opened Prefixes
  import opened Attributes
  import opened UpdateCodec
  import opened Rib
  import opened RibUpdate

  /* ---------- one prefix ---------- */

  // The register mask with the first len of width bits set.
  function Mask(len: nat, width: nat): nat
    requires len <= width
  {
    if len == 0 then 0 else Shl(Pow2(width) - 1, width - len, Pow2(width))
  }

  // The length of a prefix that covers the address, compared as 32-bit or 128-bit numbers.
  function PrefixMatchLen(p: Prefix, ip: Bytes): Option<nat> {
    if |p.address| == |ip| && (|ip| == 4 || |ip| == 16) && p.len <= 8 * |ip| then
      var mask := Mask(p.len, 8 * |ip|);
      if And(BeValue(p.address), mask) == And(BeValue(ip), mask) then Some(p.len) else None
    else None
  }

  // The prefix has the address's family and agrees with it in its first len bits.
  predicate Covers(p: Prefix, ip: Bytes) {
    |p.address| == |ip| && (|ip| == 4 || |ip| == 16) && p.len <= 8 * |ip| && Agree(p.address, ip, p.len)
  }

  lemma {:induction false} BitOfSum(high: nat, low: nat, k: nat, p: nat)
    requires low < Pow2(k)
    ensures Bit(Scale(high, k) + low, p) == if p < k then Bit(low, p) else Bit(high, p - k)
  {
    if k > 0 {
      assert (Scale(high, k) + low) / 2 == Scale(high, k - 1) + low / 2;
      if p > 0 {
        BitOfSum(high, low / 2, k - 1, p - 1);
      }
    }
  }

  // The bits of a big-endian number are the bits of its octets, in order.
  lemma {:induction false} BeBits(data: Bytes, j: nat)
    requires j < 8 * |data|
    ensures Bit(BeValue(data), 8 * |data| - 1 - j) == BitAt(data, j)
  {
    var n := |data| - 1;
    var high, low := BeValue(data[..n]), data[n];
    ScaleMultiplies(high, 8);
    assert Pow2(8) == 256;
    BitOfSum(high, low, 8, 8 * |data| - 1 - j);
    if j < 8 * n {
      BeBits(data[..n], j);
    }
  }

  lemma {:induction false} Pow256Is(n: nat)
    ensures Pow256(n) == Pow2(8 * n)
  {
    if n > 0 {
      Pow256Is(n - 1);
      var k := 8 * (n - 1);
      assert Pow2(k + 2) == 4 * Pow2(k);
      assert Pow2(k + 4) == 4 * Pow2(k + 2);
      assert Pow2(k + 6) == 4 * Pow2(k + 4);
      assert Pow2(k + 8) == 4 * Pow2(k + 6);
    }
  }

  // Masking a number leaves its first len bits and clears the rest.
  lemma MaskClears(a: nat, len: nat, width: nat)
    requires len <= width && a < Pow2(width)
    ensures And(a, Mask(len, width)) == ClearLow(a, width - len)
  {
    HighOnesValue(width - len, width);
    if len > 0 {
      ShlOnes(width - len, width);
    }
    AndHigh(a, width - len, width);
  }

  // Numbers are equal after clearing k low bits exactly when their bits from k up are equal.
  lemma SameHighBits(a: nat, b: nat, k: nat, width: nat)
    requires a < Pow2(width) && b < Pow2(width)
    ensures ClearLow(a, k) == ClearLow(b, k) <==> forall p: nat | k <= p < width :: Bit(a, p) == Bit(b, p)
  {
    var x, y := ClearLow(a, k), ClearLow(b, k);
    forall p: nat
      ensures Bit(x, p) <==> k <= p && Bit(a, p)
      ensures Bit(y, p) <==> k <= p && Bit(b, p)
    {
      ClearedBit(a, k, p);
      ClearedBit(b, k, p);
    }
    if forall p: nat | k <= p < width :: Bit(a, p) == Bit(b, p) {
      SameBitsBelow(x, y, width);
    }
  }

  // The numbers have the same bits from position low up.
  predicate SameFrom(a: Bytes, b: Bytes, low: nat)
    requires |a| == |b|
  {
    forall p: nat | low <= p < 8 * |a| :: Bit(BeValue(a), p) == Bit(BeValue(b), p)
  }

  lemma BitsAgree(a: Bytes, b: Bytes, len: nat)
    requires |a| == |b| && len <= 8 * |a|
    ensures Agree(a, b, len) <==> SameFrom(a, b, 8 * |a| - len)
  {
    hide BeValue, BitAt, Bit;
    var w := 8 * |a|;
    if Agree(a, b, len) {
      forall p: nat | w - len <= p < w ensures Bit(BeValue(a), p) == Bit(BeValue(b), p) {
        BeBits(a, w - 1 - p);
        BeBits(b, w - 1 - p);
        assert BitAt(a, w - 1 - p) == BitAt(b, w - 1 - p);
      }
    }
    if SameFrom(a, b, w - len) {
      forall j: nat | j < len && j < w ensures BitAt(a, j) == BitAt(b, j) {
        BeBits(a, j);
        BeBits(b, j);
        assert Bit(BeValue(a), w - 1 - j) == Bit(BeValue(b), w - 1 - j);
      }
    }
  }

  lemma ValueBound(a: Bytes)
    ensures BeValue(a) < Pow2(8 * |a|)
  {
    BeDigits(a);
    Pow256Is(|a|);
  }

  // The shifted-mask comparison decides agreement in the first len bits, for both address sizes
  // and every length.
  lemma MatchIsAgreement(p: Prefix, ip: Bytes)
    ensures PrefixMatchLen(p, ip) == if Covers(p, ip) then Some(p.len) else None
  {
    hide BeValue, Mask, ClearLow, And, Agree, Pow2;
    if |p.address| == |ip| && (|ip| == 4 || |ip| == 16) && p.len <= 8 * |ip| {
      var w := 8 * |ip|;
      ValueBound(p.address);
      ValueBound(ip);
      MaskClears(BeValue(p.address), p.len, w);
      MaskClears(BeValue(ip), p.len, w);
      SameHighBits(BeValue(p.address), BeValue(ip), w - p.len, w);
      BitsAgree(p.address, ip, p.len);
    }
  }

  /* ---------- the search ---------- */

  predicate CoveredBy(r: Route, ip: Bytes) {
    r.UnicastEntry? && Covers(r.prefix, ip)
  }

  // Scanning in table order, a later match replaces the best so far unless it is shorter.
  function Best(rows: seq<Route>, ip: Bytes): Option<(nat, Route)> {
    if rows == [] then None
    else
      var before, last := Best(rows[..|rows| - 1], ip), rows[|rows| - 1];
      if !last.UnicastEntry? then before
      else match PrefixMatchLen(last.prefix, ip)
           case None => before
           case Some(len) => if before.Some? && before.value.0 > len then before else Some((len, last))
  }

  // An answer is given exactly when some stored unicast route covers the address, and it is one of
  // greatest length among those.
  lemma {:induction false} SearchFindsLongest(rows: seq<Route>, ip: Bytes)
    ensures Best(rows, ip).Some? <==> exists r :: r in rows && CoveredBy(r, ip)
    ensures Best(rows, ip).Some? ==>
              var (len, best) := Best(rows, ip).value;
              best in rows && CoveredBy(best, ip) && len == best.prefix.len
    ensures forall r | r in rows && CoveredBy(r, ip) :: Best(rows, ip).Some? && r.prefix.len <= Best(rows, ip).value.0
  {
    hide Covers, PrefixMatchLen;
    if rows != [] {
      var init, last := rows[..|rows| - 1], rows[|rows| - 1];
      SearchFindsLongest(init, ip);
      if last.UnicastEntry? {
        MatchIsAgreement(last.prefix, ip);
      }
      assert forall r :: r in rows <==> r in init || r == last;
    }
  }

  // Of several routes of greatest length the latest in the table is answered.
  lemma {:induction false} SearchTakesLatest(rows: seq<Route>, ip: Bytes) returns (k: nat)
    requires Best(rows, ip).Some?
    ensures k < |rows| && rows[k] == Best(rows, ip).value.1 && CoveredBy(rows[k], ip)
    ensures forall j | k < j < |rows| && CoveredBy(rows[j], ip) :: rows[j].prefix.len < rows[k].prefix.len
  {
    hide Covers, PrefixMatchLen;
    var n := |rows| - 1;
    if rows[n].UnicastEntry? {
      MatchIsAgreement(rows[n].prefix, ip);
    }
    if rows[n].UnicastEntry? && Best(rows, ip) == Some((rows[n].prefix.len, rows[n])) && CoveredBy(rows[n], ip) {
      k := n;
    } else {
      k := SearchTakesLatest(rows[..n], ip);
      SearchFindsLongest(rows[..n], ip);
    }
  }

  /* ---------- one answer ---------- */

  predicate GroupMatches(group: Label, afi: nat) {
    group == if afi == AFI_IPV6 then Ipv6Unicast else Ipv4Unicast
  }

  // A unicast route as the decoder and the table make it: canonical prefix, group of its family,
  // id taken of its identity.
  predicate WellStored(r: Route, digest: Identity -> Id) {
    r.id == digest(IdentityOf(r))
    && (r.UnicastEntry? ==> IsCanonical(r.prefix) && GroupMatches(r.group, r.prefix.afi))
  }

  predicate AllWellStored(rows: seq<Route>, digest: Identity -> Id) {
    forall i | 0 <= i < |rows| :: WellStored(rows[i], digest)
  }

  lemma SamePrefix(p: Prefix, q: Prefix, ip: Bytes)
    requires IsCanonical(p) && IsCanonical(q) && p.len == q.len && Covers(p, ip) && Covers(q, ip)
    ensures p == q
  {
    assert Agree(p.address, q.address, p.len) by {
      forall j: nat | j < p.len && j < 8 * |p.address| ensures BitAt(p.address, j) == BitAt(q.address, j) {
        assert BitAt(p.address, j) == BitAt(ip, j);
        assert BitAt(q.address, j) == BitAt(ip, j);
      }
    }
    MaskedCanonical(p.address, q.address, p.len);
  }

  // Among one peer's routes the answer does not depend on the order of the scan.
  lemma AnswerIsUnique(rows: seq<Route>, digest: Identity -> Id, ip: Bytes, i: nat)
    requires Distinct(rows) && AllWellStored(rows, digest)
    requires i < |rows| && CoveredBy(rows[i], ip)
    requires forall r | r in rows :: r.peer == rows[i].peer
    ensures Best(rows, ip).Some?
    ensures var best := Best(rows, ip).value;
            rows[i].prefix.len == best.0 ==> rows[i] == best.1
  {
    hide Covers, Best, IsCanonical;
    SearchFindsLongest(rows, ip);
    assert rows[i] in rows;
    var best := Best(rows, ip).value.1;
    var k :| 0 <= k < |rows| && rows[k] == best;
    if rows[i].prefix.len == best.prefix.len {
      assert WellStored(rows[i], digest) && WellStored(rows[k], digest);
      SamePrefix(rows[i].prefix, best.prefix, ip);
      assert IdentityOf(rows[i]) == IdentityOf(rows[k]);
    }
  }

  /* ---------- decoding and storing keep routes in that form ---------- */

  predicate OrderlyGroup(group: Label, nlri: Nlri) {
    match nlri
    case UnicastNlri(routes) =>
      forall i | 0 <= i < |routes| :: IsCanonical(routes[i].prefix) && GroupMatches(group, routes[i].prefix.afi)
    case FlowNlri(_) => true
  }

  predicate Orderly(groups: map<Label, Nlri>) {
    forall group | group in groups :: OrderlyGroup(group, groups[group])
  }

  lemma DecodedOrderly(code: byte, head: MpHead)
    requires KnownFamily(head) && DecodeNlri(code, head).Ok?
    ensures OrderlyGroup(LabelOf(head), DecodeNlri(code, head).value)
  {
    hide IsCanonical;
    if head.safi != SAFI_FLOWSPEC {
      var hop := if code == 14 then Some(head.nextHop) else None;
      UnicastCanonical(head.nlri, head.afi, hop);
    }
  }

  lemma CarriedOrderly(a: WireAttr)
    ensures var c := Carried(a); c.Ok? && c.value.Some? ==> OrderlyGroup(c.value.value.group, c.value.value.nlri)
  {
    hide OrderlyGroup, LabelOf, DecodeNlri, KnownFamily, ReadMpHead;
    if IsMultiProtocol(a.code) {
      var head := ReadMpHead(a.code, a.data);
      if head.Ok? && KnownFamily(head.value) && DecodeNlri(a.code, head.value).Ok? {
        DecodedOrderly(a.code, head.value);
      }
    }
  }

  lemma AbsorbedOrderly(p: Progress, a: WireAttr, asnLen: nat)
    requires asnLen == 2 || asnLen == 4
    requires Orderly(p.announce) && Orderly(p.withdraw) && Absorbed(p, a, asnLen).Ok?
    ensures var q := Absorbed(p, a, asnLen).value; Orderly(q.announce) && Orderly(q.withdraw)
  {
    hide OrderlyGroup, Carried;
    CarriedOrderly(a);
  }

  lemma {:induction false} AbsorbAllOrderly(attrs: Bytes, p: Progress, asnLen: nat)
    requires asnLen == 2 || asnLen == 4
    requires Orderly(p.announce) && Orderly(p.withdraw) && AbsorbAll(attrs, p, asnLen).Ok?
    ensures var q := AbsorbAll(attrs, p, asnLen).value; Orderly(q.announce) && Orderly(q.withdraw)
    decreases |attrs|
  {
    hide Orderly, Absorbed;
    if attrs != [] {
      var frame := AttrFrame(attrs).value;
      AbsorbedOrderly(p, frame.0, asnLen);
      AbsorbAllOrderly(frame.1, Absorbed(p, frame.0, asnLen).value, asnLen);
    }
  }

  lemma PlainOrderly(groups: map<Label, Nlri>, data: Bytes, nextHop: Option<Hop>)
    requires Orderly(groups) && WithPlain(groups, data, nextHop).Ok?
    ensures Orderly(WithPlain(groups, data, nextHop).value)
  {
    hide IsCanonical;
    if data != [] {
      UnicastCanonical(data, AFI_IPV4, nextHop);
    }
  }

  // Whatever an UPDATE says, its decoded unicast routes are canonical and filed by family.
  lemma UpdateOrderly(data: Bytes, asnLen: nat)
    requires ParseUpdate(data, asnLen).Ok?
    ensures var u := ParseUpdate(data, asnLen).value; Orderly(u.announce) && Orderly(u.withdraw)
  {
    hide Orderly, WithPlain, AbsorbAll;
    var (size, body) := Take(data, 2).value;
    var (withdrawn, body') := Take(body, U16(size[0], size[1])).value;
    var (size', body'') := Take(body', 2).value;
    var (attrs, nlri) := Take(body'', U16(size'[0], size'[1])).value;
    NothingOrderly();
    AbsorbAllOrderly(attrs, NOTHING, asnLen);
    var p := Resolved(AbsorbAll(attrs, NOTHING, asnLen).value);
    PlainOrderly(p.withdraw, withdrawn, None);
    PlainOrderly(p.announce, nlri, Some(p.nextHop));
  }

  lemma NothingOrderly()
    ensures Orderly(map[])
  {
  }

  predicate OpsWellStored(ops: seq<Op>, digest: Identity -> Id, peer: Bytes) {
    forall i | 0 <= i < |ops| :: WellStored(ops[i].route, digest) && ops[i].route.peer == peer
  }

  lemma GroupWellStored(c: Context, announce: bool, group: Label, nlri: Nlri)
    requires OrderlyGroup(group, nlri)
    ensures OpsWellStored(GroupOps(c, announce, group, nlri), c.digest, c.peer)
  {
    hide IsCanonical;
  }

  lemma {:induction false} KindWellStored(c: Context, announce: bool, groups: map<Label, Nlri>, n: nat)
    requires n <= 4 && Orderly(groups)
    ensures OpsWellStored(KindOps(c, announce, groups, n), c.digest, c.peer)
  {
    hide GroupOps, WellStored, OrderlyGroup;
    if n > 0 {
      KindWellStored(c, announce, groups, n - 1);
      if LABELS[n - 1] in groups {
        GroupWellStored(c, announce, LABELS[n - 1], groups[LABELS[n - 1]]);
      }
    }
  }

  lemma {:induction false} WithoutSubset(rows: seq<Route>, id: Id)
    ensures forall r | r in Without(rows, id) :: r in rows
  {
    if rows != [] {
      WithoutSubset(rows[1..], id);
    }
  }

  predicate TableWellStored(rows: seq<Route>, digest: Identity -> Id, peer: Bytes) {
    forall r | r in rows :: WellStored(r, digest) && r.peer == peer
  }

  lemma {:induction false} ApplyWellStored(rows: seq<Route>, ops: seq<Op>, digest: Identity -> Id, peer: Bytes)
    requires TableWellStored(rows, digest, peer) && OpsWellStored(ops, digest, peer)
    ensures TableWellStored(Apply(rows, ops), digest, peer)
  {
    hide WellStored, Without;
    if ops != [] {
      var n := |ops| - 1;
      ApplyWellStored(rows, ops[..n], digest, peer);
      WithoutSubset(Apply(rows, ops[..n]), ops[n].route.id);
      assert WellStored(ops[n].route, digest);
    }
  }

  // A peer's session as the table sees it: UPDATE bodies, each decoded with its AS number width,
  // and clears. Bodies that cannot be decoded change nothing.
  datatype Happening = Received(body: Bytes, asnLen: nat) | Cleared

  function TableAfter(happenings: seq<Happening>, peer: Bytes, digest: Identity -> Id): seq<Route> {
    if happenings == [] then []
    else
      var before := TableAfter(happenings[..|happenings| - 1], peer, digest);
      match happenings[|happenings| - 1]
      case Cleared => []
      case Received(body, asnLen) =>
        match ParseUpdate(body, asnLen)
        case Err(_) => before
        case Ok(u) => Apply(before, OpsOf(u, peer, digest))
  }

  lemma OpsAreWellStored(u: Update, peer: Bytes, digest: Identity -> Id)
    requires Orderly(u.announce) && Orderly(u.withdraw)
    ensures OpsWellStored(OpsOf(u, peer, digest), digest, peer)
  {
    hide Orderly, KindOps, WellStored;
    var c := ContextOf(u, peer, digest);
    KindWellStored(c, true, u.announce, 4);
    KindWellStored(c, false, u.withdraw, 4);
  }

  lemma {:induction false} TableStays(happenings: seq<Happening>, peer: Bytes, digest: Identity -> Id)
    ensures Distinct(TableAfter(happenings, peer, digest))
    ensures TableWellStored(TableAfter(happenings, peer, digest), digest, peer)
  {
    hide WellStored, Distinct, TableWellStored, OpsOf, Apply, ParseUpdate;
    if happenings == [] {
      NoRoutes(digest, peer);
    } else {
      var before := TableAfter(happenings[..|happenings| - 1], peer, digest);
      TableStays(happenings[..|happenings| - 1], peer, digest);
      match happenings[|happenings| - 1] {
        case Cleared => NoRoutes(digest, peer);
        case Received(body, asnLen) =>
          if ParseUpdate(body, asnLen).Ok? {
            var u := ParseUpdate(body, asnLen).value;
            UpdateOrderly(body, asnLen);
            OpsAreWellStored(u, peer, digest);
            ApplyDistinct(before, OpsOf(u, peer, digest));
            ApplyWellStored(before, OpsOf(u, peer, digest), digest, peer);
          }
      }
    }
  }

  lemma NoRoutes(digest: Identity -> Id, peer: Bytes)
    ensures Distinct([]) && TableWellStored([], digest, peer)
  {
  }

  // After any session, a lookup answers exactly when a stored route covers the address, with the
  // one covering route of greatest length.
  lemma LookupIsExact(happenings: seq<Happening>, peer: Bytes, digest: Identity -> Id, ip: Bytes)
    ensures var rows := TableAfter(happenings, peer, digest);
            && (Best(rows, ip).Some? <==> exists r :: r in rows && CoveredBy(r, ip))
            && forall r | r in rows && CoveredBy(r, ip) ::
                 var (len, best) := Best(rows, ip).value;
                 CoveredBy(best, ip) && len == best.prefix.len && (r == best || r.prefix.len < len)
  {
    hide TableAfter, Best, Covers, WellStored;
    var rows := TableAfter(happenings, peer, digest);
    TableStays(happenings, peer, digest);
    SearchFindsLongest(rows, ip);
    forall r | r in rows && CoveredBy(r, ip)
      ensures r == Best(rows, ip).value.1 || r.prefix.len < Best(rows, ip).value.0
    {
      var i :| 0 <= i < |rows| && rows[i] == r;
      AnswerIsUnique(rows, digest, ip, i);
    }
  }
}
