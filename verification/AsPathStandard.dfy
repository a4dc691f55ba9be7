/**
 * What RFC 6793 makes of AS_PATH and AS4_PATH, segment by segment, and exactly when the program's
 * merge of flat lists agrees with it.
 */
module AsPathStandard {
  import opened Base
  import opened Octets
  import opened Prefixes
  import opened Attributes
  import opened UpdateCodec
  import opened UpdateGrammar
  import opened UpdateProperties
  import opened AsPaths
  import OpenCodec

  const AS_SET: byte := 1
  const AS_SEQUENCE: byte := 2
  const AS_CONFED_SEQUENCE: byte := 3
  const AS_CONFED_SET: byte := 4

  /* ---------- the standard ---------- */

  predicate IsConfed(s: Segment) {
    s.kind == AS_CONFED_SEQUENCE || s.kind == AS_CONFED_SET
  }

  // Counting for route selection, by section 9.1.2.2 of RFC 4271 and RFC 5065: a set is one
  // number, a confederation segment none.
  function Counted(s: Segment): nat {
    if s.kind == AS_SEQUENCE then |s.asns| else if s.kind == AS_SET then 1 else 0
  }

  function PathCount(path: seq<Segment>): nat {
    if path == [] then 0 else Counted(path[0]) + PathCount(path[1..])
  }

  // The segment types the two attributes may carry: AS4_PATH has no confederation segments.
  predicate PathTypes(path: seq<Segment>) {
    forall i | 0 <= i < |path| :: AS_SET <= path[i].kind <= AS_CONFED_SET
  }

  predicate As4Types(as4: seq<Segment>) {
    forall i | 0 <= i < |as4| :: AS_SET <= as4[i].kind <= AS_SEQUENCE
  }

  // Segments from the start that hold n counted numbers; a confederation segment comes along when
  // it leads or follows one that is taken.
  function Leading(path: seq<Segment>, n: nat): seq<Segment> {
    if path == [] then []
    else if IsConfed(path[0]) then [path[0]] + Leading(path[1..], n)
    else if n == 0 then []
    else if Counted(path[0]) <= n then [path[0]] + Leading(path[1..], n - Counted(path[0]))
    else [Segment(path[0].kind, path[0].asns[..n])]
  }

  // The path the standard builds: AS_PATH as it is when AS4_PATH is not to be heeded, and by section
  // 4.2.3 also when AS4_PATH counts more; otherwise the leading part of AS_PATH before AS4_PATH.
  function StandardPath(path: seq<Segment>, as4: seq<Segment>, ignored: bool): Option<seq<Segment>> {
    if !PathTypes(path) then None
    else if ignored then Some(path)
    else if !As4Types(as4) then None
    else if PathCount(path) < PathCount(as4) then Some(path)
    else Some(Leading(path, PathCount(path) - PathCount(as4)) + as4)
  }

  // The AS number of the last AGGREGATOR (code 7) or AS4_AGGREGATOR (code 18) that has a value.
  function LastAggregator(attributes: seq<Attr>, code: byte): Option<nat> {
    if attributes == [] then None
    else
      var a := attributes[|attributes| - 1];
      if a.code == code && a.content.Value? && a.content.value.Aggregator? then Some(a.content.value.asn)
      else LastAggregator(attributes[..|attributes| - 1], code)
  }

  // Both aggregator attributes are there, and the two-octet one holds a real AS number.
  predicate Overruled(attributes: seq<Attr>) {
    && LastAggregator(attributes, 18).Some?
    && LastAggregator(attributes, 7).Some? && LastAggregator(attributes, 7).value != OpenCodec.AS_TRANS
  }

  // AS4_PATH is for sessions of two-octet numbers. On a session of four-octet numbers section 4.1
  // has it discarded, and section 4.2.3 ignores it when the aggregators overrule it.
  predicate Ignored(attributes: seq<Attr>, asnLen: nat) {
    asnLen == 4 || Overruled(attributes)
  }

  function LastSegments(attributes: seq<Attr>, code: byte): seq<Segment> {
    if attributes == [] then []
    else
      var a := attributes[|attributes| - 1];
      if a.code == code && a.content.Value? && a.content.value.AsPath? then a.content.value.segments
      else LastSegments(attributes[..|attributes| - 1], code)
  }

  // The same for the attributes of one UPDATE on a session of the given width, as a list of numbers.
  function StandardNumbers(attributes: seq<Attr>, asnLen: nat): Option<seq<nat>> {
    match StandardPath(LastSegments(attributes, 2), LastSegments(attributes, 17), Ignored(attributes, asnLen))
    case None => None
    case Some(path) => Some(Flat(path))
  }

  // What the program stores for those attributes.
  function ProgramNumbers(attributes: seq<Attr>): seq<nat> {
    Merged(LastPath(attributes, 2), LastPath(attributes, 17))
  }

  lemma {:induction false} LastPathFlat(attributes: seq<Attr>, code: byte)
    ensures LastPath(attributes, code) == Flat(LastSegments(attributes, code))
  {
    if attributes != [] {
      LastPathFlat(attributes[..|attributes| - 1], code);
    }
  }

  /* ---------- the path it builds ---------- */

  lemma {:induction false} FlatAppend(a: seq<Segment>, b: seq<Segment>)
    ensures Flat(a + b) == Flat(a) + Flat(b)
    ensures PathCount(a + b) == PathCount(a) + PathCount(b)
  {
    if a == [] {
      assert a + b == b;
    } else {
      assert (a + b)[1..] == a[1..] + b;
      FlatAppend(a[1..], b);
      Regrouped(Cut(a[0].asns), Flat(a[1..]), Flat(b));
    }
  }

  lemma Regrouped<T>(a: seq<T>, b: seq<T>, c: seq<T>)
    ensures a + (b + c) == a + b + c
  {
  }

  // As many counted numbers as asked for, in case there are so many.
  lemma {:induction false} LeadingCount(path: seq<Segment>, n: nat)
    requires n <= PathCount(path)
    ensures PathCount(Leading(path, n)) == n
  {
    if path != [] {
      var rest := path[1..];
      if IsConfed(path[0]) {
        LeadingCount(rest, n);
        CountCons(path[0], Leading(rest, n));
      } else if n > 0 && Counted(path[0]) <= n {
        LeadingCount(rest, n - Counted(path[0]));
        CountCons(path[0], Leading(rest, n - Counted(path[0])));
      } else if n > 0 {
        CountCons(Segment(path[0].kind, path[0].asns[..n]), []);
      }
    }
  }

  lemma CountCons(s: Segment, others: seq<Segment>)
    ensures PathCount([s] + others) == Counted(s) + PathCount(others)
    ensures Flat([s] + others) == Cut(s.asns) + Flat(others)
    ensures PathCount([s]) == Counted(s) && Flat([s]) == Cut(s.asns)
  {
    assert ([s] + others)[1..] == others && [s][1..] == [];
    assert Cut(s.asns) + [] == Cut(s.asns);
  }

  // What the standard asks of its result: when AS4_PATH is used, the merged path counts exactly
  // as many numbers as AS_PATH, and ends in AS4_PATH.
  lemma StandardKeepsCount(path: seq<Segment>, as4: seq<Segment>)
    requires PathTypes(path) && As4Types(as4) && PathCount(as4) <= PathCount(path)
    ensures var r := StandardPath(path, as4, false).value;
            PathCount(r) == PathCount(path) && |as4| <= |r| && r[|r| - |as4|..] == as4
  {
    var d := PathCount(path) - PathCount(as4);
    LeadingCount(path, d);
    FlatAppend(Leading(path, d), as4);
  }

  // How many numbers of any kind stand in the leading segments.
  function LeadingSize(path: seq<Segment>, n: nat): nat {
    if path == [] then 0
    else if IsConfed(path[0]) then |path[0].asns| + LeadingSize(path[1..], n)
    else if n == 0 then 0
    else if Counted(path[0]) <= n then |path[0].asns| + LeadingSize(path[1..], n - Counted(path[0]))
    else n
  }

  lemma {:induction false} LeadingIsPrefix(path: seq<Segment>, n: nat)
    requires PathTypes(path)
    ensures LeadingSize(path, n) <= |Flat(path)|
    ensures Flat(Leading(path, n)) == Flat(path)[..LeadingSize(path, n)]
  {
    hide Flat, Cut, Counted;
    if path == [] {
      NothingFlat();
    } else {
      var s, rest := path[0], path[1..];
      assert path == [s] + rest;
      CountCons(s, rest);
      if IsConfed(s) {
        LeadingIsPrefix(rest, n);
        TakenWhole(s, rest, Leading(rest, n), LeadingSize(rest, n));
      } else if n == 0 {
        NothingFlat();
      } else if Counted(s) <= n {
        LeadingIsPrefix(rest, n - Counted(s));
        TakenWhole(s, rest, Leading(rest, n - Counted(s)), LeadingSize(rest, n - Counted(s)));
      } else {
        TakenPart(s, rest, n);
      }
    }
  }

  lemma NothingFlat()
    ensures Flat([]) == []
  {
  }

  lemma TakenWhole(s: Segment, rest: seq<Segment>, lead: seq<Segment>, k: nat)
    requires k <= |Flat(rest)| && Flat(lead) == Flat(rest)[..k]
    ensures Flat([s] + lead) == Flat([s] + rest)[..|s.asns| + k]
  {
    hide Flat, Cut;
    CountCons(s, lead);
    CountCons(s, rest);
    PrefixOfBoth(Cut(s.asns), Flat(rest), k);
  }

  lemma TakenPart(s: Segment, rest: seq<Segment>, n: nat)
    requires n < Counted(s) && AS_SET <= s.kind && n > 0
    ensures n <= |s.asns| && Flat([Segment(s.kind, s.asns[..n])]) == Flat([s] + rest)[..n]
  {
    hide Flat;
    CountCons(s, rest);
    CountCons(Segment(s.kind, s.asns[..n]), []);
    assert Cut(s.asns[..n]) == Cut(s.asns)[..n];
  }

  lemma PrefixOfBoth<T>(a: seq<T>, b: seq<T>, k: nat)
    requires k <= |b|
    ensures a + b[..k] == (a + b)[..|a| + k]
  {
  }

  /* ---------- when the program agrees ---------- */

  predicate EndsIn(a: seq<nat>, b: seq<nat>) {
    |b| <= |a| && a[|a| - |b|..] == b
  }

  function Longer(a: nat, b: nat): nat {
    if a < b then b else a
  }

  // The program cuts by the length of the flat lists, on every session. That gives the standard's
  // path when AS4_PATH is not to be used only if AS_PATH ends in it anyway, and otherwise if the
  // leading segments and AS4_PATH together are as long as the longer list.
  predicate CutsRight(path: seq<Segment>, as4: seq<Segment>, ignored: bool) {
    && PathTypes(path)
    && if ignored then EndsIn(Flat(path), Flat(as4))
       else
         && As4Types(as4)
         && if PathCount(path) < PathCount(as4) then EndsIn(Flat(path), Flat(as4))
            else
              LeadingSize(path, PathCount(path) - PathCount(as4)) + |Flat(as4)| == Longer(|Flat(path)|, |Flat(as4)|)
  }

  lemma MergeAgainst(a: seq<nat>, b: seq<nat>, m: nat)
    requires m <= |a|
    ensures Merged(a, b) == a <==> EndsIn(a, b)
    ensures Merged(a, b) == a[..m] + b <==> m + |b| == Longer(|a|, |b|)
  {
    if |b| <= |a| {
      assert a == a[..|a| - |b|] + a[|a| - |b|..];
      if Merged(a, b) == a {
        assert Merged(a, b)[|a| - |b|..] == b;
      }
    }
    assert |a[..m] + b| == m + |b| && |Merged(a, b)| == Longer(|a|, |b|);
    assert a[..|a|] + [] == a;
  }

  // For any attributes of an UPDATE, on a session of either width, the program's path is the
  // standard's if and only if it cuts at the standard's place.
  lemma MergeStandard(attributes: seq<Attr>, asnLen: nat)
    ensures StandardNumbers(attributes, asnLen) == Some(ProgramNumbers(attributes))
       <==> CutsRight(LastSegments(attributes, 2), LastSegments(attributes, 17), Ignored(attributes, asnLen))
  {
    hide Flat, LastPath, LastSegments, Ignored, Merged, EndsIn, PathCount, Leading, LeadingSize, As4Types;
    var path, as4 := LastSegments(attributes, 2), LastSegments(attributes, 17);
    LastPathFlat(attributes, 2);
    LastPathFlat(attributes, 17);
    if PathTypes(path) {
      var d := if PathCount(path) < PathCount(as4) then 0 else PathCount(path) - PathCount(as4);
      LeadingIsPrefix(path, d);
      FlatAppend(Leading(path, d), as4);
      MergeAgainst(Flat(path), Flat(as4), LeadingSize(path, d));
    }
  }

  predicate Sequences(path: seq<Segment>) {
    forall i | 0 <= i < |path| :: path[i].kind == AS_SEQUENCE
  }

  lemma {:induction false} SequenceCount(path: seq<Segment>, n: nat)
    requires Sequences(path)
    ensures PathCount(path) == |Flat(path)|
    ensures n <= PathCount(path) ==> LeadingSize(path, n) == n
  {
    if path != [] {
      SequenceCount(path[1..], if n < |path[0].asns| then 0 else n - |path[0].asns|);
    }
  }

  // With AS_SEQUENCE segments only and no overruling aggregator, the program departs from the
  // standard on a two-octet session exactly when AS4_PATH is the longer one, and on a four-octet
  // session exactly when AS_PATH does not end in it.
  lemma SequencesAgree(attributes: seq<Attr>, asnLen: nat)
    requires Sequences(LastSegments(attributes, 2)) && Sequences(LastSegments(attributes, 17)) && !Overruled(attributes)
    ensures StandardNumbers(attributes, asnLen) == Some(ProgramNumbers(attributes))
       <==> if asnLen == 4 then EndsIn(LastPath(attributes, 2), LastPath(attributes, 17))
            else |LastPath(attributes, 17)| <= |LastPath(attributes, 2)|
  {
    hide Flat, LastPath, LastSegments, Overruled, Merged, PathCount, LeadingSize, StandardNumbers, ProgramNumbers;
    var path, as4 := LastSegments(attributes, 2), LastSegments(attributes, 17);
    MergeStandard(attributes, asnLen);
    LastPathFlat(attributes, 2);
    LastPathFlat(attributes, 17);
    SequenceCount(path, 0);
    SequenceCount(as4, 0);
    if PathCount(as4) <= PathCount(path) {
      SequenceCount(path, PathCount(path) - PathCount(as4));
    }
  }

  /* ---------- messages on which they differ ---------- */

  // A message that carries no routes is accepted, and its entries are what its attributes decode to.
  lemma PathMessage(attrs: seq<WireAttr>, asnLen: nat)
    requires asnLen == 2 || asnLen == 4
    requires forall i | 0 <= i < |attrs| :: !IsMultiProtocol(attrs[i].code) && attrs[i].code != 16
    ensures Interpret(Message([], attrs, []), asnLen).Ok?
    ensures Interpret(Message([], attrs, []), asnLen).value.attributes
         == seq(|attrs|, i requires 0 <= i < |attrs| => AttrOf(attrs[i], asnLen))
  {
    hide AttrOf, Interpret, MpSources;
    var m := Message([], attrs, []);
    assert AllReadable(attrs);
    NoSources(attrs, 14);
    NoSources(attrs, 15);
    MessageMeaning(m, asnLen);
    var u := Interpret(m, asnLen).value;
    forall k | 0 <= k < |attrs| ensures |u.attributes| == |attrs| && u.attributes[k] == AttrOf(attrs[k], asnLen) {
      EntryKept(m, k, asnLen);
    }
    InterpretEntries(m, asnLen);
    if attrs == [] {
      NoEntries(asnLen);
    }
  }

  lemma NoEntries(asnLen: nat)
    requires asnLen == 2 || asnLen == 4
    ensures Interpret(Message([], [], []), asnLen).Ok? ==>
              Interpret(Message([], [], []), asnLen).value.attributes == []
  {
  }

  lemma {:induction false} NoSources(attrs: seq<WireAttr>, code: byte)
    requires IsMultiProtocol(code) && forall i | 0 <= i < |attrs| :: !IsMultiProtocol(attrs[i].code)
    ensures MpSources(attrs, code) == []
  {
    if attrs != [] {
      NoSources(attrs[..|attrs| - 1], code);
    }
  }

  function TwoPaths(path: seq<Segment>, wide: seq<Segment>, asnLen: nat): seq<WireAttr>
    requires ValidSegments(path, asnLen) && ValidSegments(wide, 4)
  {
    [WireAttr(0x40, 2, EncodeSegments(path, asnLen)), WireAttr(0xc0, 17, EncodeSegments(wide, 4))]
  }

  lemma TwoPathsRead(path: seq<Segment>, wide: seq<Segment>, asnLen: nat)
    requires asnLen == 2 || asnLen == 4
    requires ValidSegments(path, asnLen) && ValidSegments(wide, 4)
    ensures var attrs := TwoPaths(path, wide, asnLen);
            var attributes := [AttrOf(attrs[0], asnLen), AttrOf(attrs[1], asnLen)];
            LastSegments(attributes, 2) == path && LastSegments(attributes, 17) == wide && !Overruled(attributes)
  {
    hide EncodeSegments, Decoded;
    var attrs := TwoPaths(path, wide, asnLen);
    var x, y := AttrOf(attrs[0], asnLen), AttrOf(attrs[1], asnLen);
    DecodedPath(attrs[0], path, asnLen);
    DecodedPath(attrs[1], wide, asnLen);
    assert [x, y][..1] == [x] && [x][..0] == [];
    assert LastAggregator([x], 18) == LastAggregator([], 18) == None;
  }

  lemma TwoPathsMessage(path: seq<Segment>, wide: seq<Segment>, asnLen: nat) returns (m: Message)
    requires asnLen == 2 || asnLen == 4
    requires ValidSegments(path, asnLen) && ValidSegments(wide, 4)
    ensures Interpret(m, asnLen).Ok?
    ensures var attributes := Interpret(m, asnLen).value.attributes;
            LastSegments(attributes, 2) == path && LastSegments(attributes, 17) == wide && !Overruled(attributes)
  {
    hide LastSegments, Overruled, EncodeSegments, AttrOf, Interpret;
    var attrs := TwoPaths(path, wide, asnLen);
    m := Message([], attrs, []);
    PathMessage(attrs, asnLen);
    TwoPathsRead(path, wide, asnLen);
    assert seq(2, i requires 0 <= i < 2 => AttrOf(attrs[i], asnLen))
        == [AttrOf(attrs[0], asnLen), AttrOf(attrs[1], asnLen)];
  }

  lemma SmallNumbers(asns: seq<nat>, width: nat)
    requires width == 2 || width == 4
    requires forall n | n in asns :: n < if width == 2 then 65536 else 0x1_0000_0000
    ensures ValidNumbers(asns, width) && Cut(asns) == asns
  {
    assert forall i | 0 <= i < |asns| :: asns[i] in asns;
    assert Pow256(1) == 256 && Pow256(2) == 65536 && Pow256(3) == 0x100_0000 && Pow256(4) == 0x1_0000_0000;
  }

  // AS_PATH 10 11 {12 13} with AS4_PATH 70000 70001 70002.
  const SET_AS_PATH: seq<Segment> := [Segment(AS_SEQUENCE, [10, 11]), Segment(AS_SET, [12, 13])]
  const SET_AS4_PATH: seq<Segment> := [Segment(AS_SEQUENCE, [70000, 70001, 70002])]

  lemma SetInAsPathMerge()
    ensures Flat(SET_AS_PATH) == [10, 11, 12, 13] && Flat(SET_AS4_PATH) == [70000, 70001, 70002]
    ensures StandardPath(SET_AS_PATH, SET_AS4_PATH, false) == Some(SET_AS4_PATH)
  {
    hide Cut;
    var narrow, wide := SET_AS_PATH, SET_AS4_PATH;
    SmallNumbers([10, 11], 2);
    SmallNumbers([12, 13], 2);
    SmallNumbers([70000, 70001, 70002], 4);
    CountCons(wide[0], []);
    CountCons(narrow[1], []);
    CountCons(narrow[0], [narrow[1]]);
    assert narrow == [narrow[0]] + [narrow[1]];
    assert Leading(narrow, 0) == [];
    assert [] + wide == wide;
  }

  // AS4_PATH is the shorter list, and yet the program keeps the 10 that the standard drops,
  // because it counts the set as two.
  lemma SetInAsPath() returns (m: Message)
    ensures Interpret(m, 2).Ok?
    ensures var attributes := Interpret(m, 2).value.attributes;
            && StandardNumbers(attributes, 2) == Some([70000, 70001, 70002])
            && ProgramNumbers(attributes) == [10, 70000, 70001, 70002]
  {
    hide LastPath, LastSegments, Interpret, Overruled, StandardPath, Flat;
    SmallNumbers([10, 11], 2);
    SmallNumbers([12, 13], 2);
    SmallNumbers([70000, 70001, 70002], 4);
    m := TwoPathsMessage(SET_AS_PATH, SET_AS4_PATH, 2);
    var attributes := Interpret(m, 2).value.attributes;
    LastPathFlat(attributes, 2);
    LastPathFlat(attributes, 17);
    SetInAsPathMerge();
  }

  // AS_PATH 10 11 12 with AS4_PATH 70000 {1 2 3}.
  const LONG_AS_PATH: seq<Segment> := [Segment(AS_SEQUENCE, [10, 11, 12])]
  const LONG_AS4_PATH: seq<Segment> := [Segment(AS_SEQUENCE, [70000]), Segment(AS_SET, [1, 2, 3])]

  lemma SetInAs4PathMerge()
    ensures Flat(LONG_AS_PATH) == [10, 11, 12] && Flat(LONG_AS4_PATH) == [70000, 1, 2, 3]
    ensures StandardPath(LONG_AS_PATH, LONG_AS4_PATH, false) == Some([Segment(AS_SEQUENCE, [10])] + LONG_AS4_PATH)
  {
    hide Cut;
    var narrow, wide := LONG_AS_PATH, LONG_AS4_PATH;
    SmallNumbers([10, 11, 12], 2);
    SmallNumbers([70000], 4);
    SmallNumbers([1, 2, 3], 4);
    CountCons(narrow[0], []);
    CountCons(wide[1], []);
    CountCons(wide[0], [wide[1]]);
    assert wide == [wide[0]] + [wide[1]];
    assert [10, 11, 12][..1] == [10];
    assert Leading(narrow, 1) == [Segment(AS_SEQUENCE, [10, 11, 12][..1])];
  }

  // AS4_PATH is the longer list, and yet the standard uses it, because it counts the set as one.
  lemma SetInAs4Path() returns (m: Message)
    ensures Interpret(m, 2).Ok?
    ensures var attributes := Interpret(m, 2).value.attributes;
            && StandardNumbers(attributes, 2) == Some([10, 70000, 1, 2, 3])
            && ProgramNumbers(attributes) == [70000, 1, 2, 3]
  {
    hide LastPath, LastSegments, Interpret, Overruled, StandardPath, Flat, Cut;
    SmallNumbers([10, 11, 12], 2);
    SmallNumbers([70000], 4);
    SmallNumbers([1, 2, 3], 4);
    m := TwoPathsMessage(LONG_AS_PATH, LONG_AS4_PATH, 2);
    var attributes := Interpret(m, 2).value.attributes;
    LastPathFlat(attributes, 2);
    LastPathFlat(attributes, 17);
    SetInAs4PathMerge();
    var lead := Segment(AS_SEQUENCE, [10]);
    CountCons(lead, LONG_AS4_PATH);
    SmallNumbers([10], 2);
    assert [10] + [70000, 1, 2, 3] == [10, 70000, 1, 2, 3];
  }

  /* ---------- an aggregator that overrules ---------- */

  function Aggregated(narrow: seq<Segment>, wide: seq<Segment>): seq<WireAttr>
    requires ValidSegments(narrow, 2) && ValidSegments(wide, 4)
  {
    TwoPaths(narrow, wide, 2)
    + [WireAttr(0xc0, 7, [0, 10, 192, 0, 2, 1]), WireAttr(0xc0, 18, [0, 1, 17, 112, 192, 0, 2, 1])]
  }

  // 70000 in four octets.
  lemma SeventyThousand()
    ensures BeValue([0, 1, 17, 112]) == 70000 && BeValue([0, 10]) == 10
  {
    var d: Bytes := [0, 1, 17, 112];
    BeTwo([0, 10]);
    BeTwo([0, 1]);
    assert d[..2] == [0, 1] && d[..4] == d;
    BeSnoc(d, 2);
    BeSnoc(d, 3);
  }

  lemma AggregatorDecoded(asn: Bytes, router: Bytes)
    requires |router| == 4 && (|asn| == 2 || |asn| == 4)
    ensures Decoded(if |asn| == 2 then 7 else 18, asn + router, 2) == Ok(Aggregator(BeValue(asn), Hop4(router)))
  {
    hide Segments, Chunks, MapChunks, BeValue, ReadMpHead;
    assert (asn + router)[..|asn|] == asn && (asn + router)[|asn|..] == router;
  }

  lemma AggregatorsRead(narrow: seq<Segment>, wide: seq<Segment>)
    requires ValidSegments(narrow, 2) && ValidSegments(wide, 4)
    ensures var attrs := Aggregated(narrow, wide);
            && AttrOf(attrs[2], 2).content == Value(Aggregator(10, Hop4([192, 0, 2, 1])))
            && AttrOf(attrs[3], 2).content == Value(Aggregator(70000, Hop4([192, 0, 2, 1])))
  {
    hide EncodeSegments, Decoded, BeValue;
    SeventyThousand();
    AggregatorDecoded([0, 10], [192, 0, 2, 1]);
    AggregatorDecoded([0, 1, 17, 112], [192, 0, 2, 1]);
    assert [0, 10] + [192, 0, 2, 1] == [0, 10, 192, 0, 2, 1];
    assert [0, 1, 17, 112] + [192, 0, 2, 1] == [0, 1, 17, 112, 192, 0, 2, 1];
  }

  lemma {:induction false} FourRead(narrow: seq<Segment>, wide: seq<Segment>, attributes: seq<Attr>)
    requires ValidSegments(narrow, 2) && ValidSegments(wide, 4)
    requires |attributes| == 4 && forall i | 0 <= i < 4 :: attributes[i] == AttrOf(Aggregated(narrow, wide)[i], 2)
    ensures LastSegments(attributes, 2) == narrow && LastSegments(attributes, 17) == wide && Overruled(attributes)
  {
    hide EncodeSegments, Decoded;
    AggregatorsRead(narrow, wide);
    DecodedPath(TwoPaths(narrow, wide, 2)[0], narrow, 2);
    DecodedPath(TwoPaths(narrow, wide, 2)[1], wide, 2);
    var two := attributes[..2];
    var three := attributes[..3];
    assert three[..2] == two && two[..1][0] == attributes[0];
    assert LastSegments(attributes, 17) == LastSegments(three, 17) == LastSegments(two, 17) == wide;
    assert LastSegments(attributes, 2) == LastSegments(three, 2) == LastSegments(two, 2);
    assert LastSegments(two, 2) == LastSegments(two[..1], 2) == narrow;
    assert LastAggregator(attributes, 7) == LastAggregator(three, 7) == Some(10);
    assert LastAggregator(attributes, 18) == Some(70000);
  }

  // With AGGREGATOR 10 beside AS4_AGGREGATOR 70000 the standard takes AS_PATH as it is, whatever
  // AS4_PATH says; the program takes no notice of either.
  lemma AggregatorOverrules(narrow: seq<Segment>, wide: seq<Segment>) returns (m: Message)
    requires ValidSegments(narrow, 2) && ValidSegments(wide, 4) && PathTypes(narrow)
    ensures Interpret(m, 2).Ok?
    ensures var attributes := Interpret(m, 2).value.attributes;
            && StandardNumbers(attributes, 2) == Some(Flat(narrow))
            && ProgramNumbers(attributes) == Merged(Flat(narrow), Flat(wide))
            && (StandardNumbers(attributes, 2) == Some(Merged(Flat(narrow), Flat(wide)))
                <==> EndsIn(Flat(narrow), Flat(wide)))
  {
    hide LastPath, LastSegments, Overruled, EncodeSegments, AttrOf, Interpret, Flat, Merged, EndsIn, PathTypes;
    var attrs := Aggregated(narrow, wide);
    m := Message([], attrs, []);
    PathMessage(attrs, 2);
    var attributes := Interpret(m, 2).value.attributes;
    FourRead(narrow, wide, attributes);
    LastPathFlat(attributes, 2);
    LastPathFlat(attributes, 17);
    MergeAgainst(Flat(narrow), Flat(wide), 0);
  }

  /* ---------- sessions of four-octet numbers ---------- */

  // Whatever paths a message carries on a four-octet session, the standard takes AS_PATH alone, and
  // the program merges all the same; that makes no difference exactly when AS_PATH ends in AS4_PATH.
  lemma FourOctetSession(path: seq<Segment>, wide: seq<Segment>) returns (m: Message)
    requires ValidSegments(path, 4) && ValidSegments(wide, 4) && PathTypes(path)
    ensures Interpret(m, 4).Ok?
    ensures var attributes := Interpret(m, 4).value.attributes;
            && StandardNumbers(attributes, 4) == Some(Flat(path))
            && ProgramNumbers(attributes) == Merged(Flat(path), Flat(wide))
            && (StandardNumbers(attributes, 4) == Some(ProgramNumbers(attributes))
                <==> EndsIn(Flat(path), Flat(wide)))
  {
    hide LastPath, LastSegments, Overruled, Interpret, Flat, Merged, EndsIn, PathTypes;
    m := TwoPathsMessage(path, wide, 4);
    var attributes := Interpret(m, 4).value.attributes;
    LastPathFlat(attributes, 2);
    LastPathFlat(attributes, 17);
    MergeAgainst(Flat(path), Flat(wide), 0);
  }

  // AS_PATH 10 11 with AS4_PATH 70000 on a four-octet session: the program stores 10 70000.
  lemma DiscardedAs4Path() returns (m: Message)
    ensures Interpret(m, 4).Ok?
    ensures var attributes := Interpret(m, 4).value.attributes;
            StandardNumbers(attributes, 4) == Some([10, 11]) && ProgramNumbers(attributes) == [10, 70000]
  {
    hide Interpret, ProgramNumbers, StandardNumbers;
    var path, wide := [Segment(AS_SEQUENCE, [10, 11])], [Segment(AS_SEQUENCE, [70000])];
    SmallNumbers([10, 11], 4);
    SmallNumbers([70000], 4);
    CountCons(path[0], []);
    CountCons(wide[0], []);
    m := FourOctetSession(path, wide);
  }
}
