/** The AS path and communities of an UPDATE, gathered from its attributes. */
module AsPaths {
  import opened Base
  import opened Attributes
  import opened UpdateCodec
  import opened UpdateGrammar
  import opened UpdateProperties
  import OpenCodec

  const TWO32: nat := 0x1_0000_0000

  // The AS numbers of all segments in order, each cut to 32 bits.
  function Flat(segments: seq<Segment>): seq<nat> {
    if segments == [] then [] else Cut(segments[0].asns) + Flat(segments[1..])
  }

  function Cut(asns: seq<nat>): (r: seq<nat>)
    ensures |r| == |asns|
  {
    seq(|asns|, i requires 0 <= i < |asns| => asns[i] % TWO32)
  }

  // The path in the last attribute of the given code that holds one.
  function LastPath(attributes: seq<Attr>, code: byte): seq<nat> {
    if attributes == [] then []
    else
      var a := attributes[|attributes| - 1];
      if a.code == code && a.content.Value? && a.content.value.AsPath? then Flat(a.content.value.segments)
      else LastPath(attributes[..|attributes| - 1], code)
  }

  function CommunitiesIn(a: Attr): seq<Community> {
    if (a.code == 8 || a.code == 32) && a.content.Value? && a.content.value.Communities? then
      a.content.value.communities
    else []
  }

  function AllCommunities(attributes: seq<Attr>): seq<Community> {
    if attributes == [] then []
    else AllCommunities(attributes[..|attributes| - 1]) + CommunitiesIn(attributes[|attributes| - 1])
  }

  // The four-octet path replaces as many numbers at the end of the other one as it has.
  function Merged(path: seq<nat>, as4: seq<nat>): seq<nat> {
    if as4 == [] then path
    else path[..if |as4| < |path| then |path| - |as4| else 0] + as4
  }

  method GatherPath(attributes: seq<Attr>) returns (path: seq<nat>, communities: seq<Community>)
    ensures path == Merged(LastPath(attributes, 2), LastPath(attributes, 17))
    ensures communities == AllCommunities(attributes)
  {
    path, communities := [], [];
    var as4 := [];
    for i := 0 to |attributes|
      invariant path == LastPath(attributes[..i], 2)
      invariant as4 == LastPath(attributes[..i], 17)
      invariant communities == AllCommunities(attributes[..i])
    {
      var attr := attributes[i];
      assert attributes[..i + 1][..i] == attributes[..i];
      if attr.content.Value? {
        if (attr.code == 2 || attr.code == 17) && attr.content.value.AsPath? {
          var flat := Flat(attr.content.value.segments);
          if attr.code == 17 {
            as4 := flat;
          } else {
            path := flat;
          }
        } else if (attr.code == 8 || attr.code == 32) && attr.content.value.Communities? {
          communities := communities + attr.content.value.communities;
        }
      }
    }
    assert attributes[..|attributes|] == attributes;
    if as4 != [] {
      path := path[..if |as4| < |path| then |path| - |as4| else 0];
      path := path + as4;
    }
  }

  /* ---------- properties of the merge ---------- */

  // The result is as long as the longer path, ends in the four-octet one, and before that keeps
  // the start of the other.
  lemma MergeShape(path: seq<nat>, as4: seq<nat>)
    requires as4 != []
    ensures var r := Merged(path, as4);
            && |r| == (if |path| < |as4| then |as4| else |path|)
            && r[|r| - |as4|..] == as4
            && r[..|r| - |as4|] <= path
  {
  }

  // A path as a speaker of two-octet numbers carries it.
  function Substituted(path: seq<nat>): (r: seq<nat>)
    ensures |r| == |path|
  {
    seq(|path|, i requires 0 <= i < |path| => if path[i] < 65536 then path[i] else OpenCodec.AS_TRANS)
  }

  // When everything before the last k numbers fits in two octets and those k are carried in
  // full, the merge restores the path.
  lemma MergeRestores(path: seq<nat>, k: nat)
    requires k <= |path|
    requires forall i | 0 <= i < |path| - k :: path[i] < 65536
    ensures Merged(Substituted(path), path[|path| - k..]) == path
  {
    var front := path[..|path| - k];
    assert Substituted(path)[..|path| - k] == front;
    assert front + path[|path| - k..] == path;
    if k == 0 {
      assert Substituted(path) == path;
    }
  }

  lemma {:induction false} OnlyPath(attributes: seq<Attr>, code: byte, i: nat, segments: seq<Segment>)
    requires i < |attributes| && attributes[i].code == code
    requires attributes[i].content == Value(AsPath(segments))
    requires forall l | i < l < |attributes| :: attributes[l].code != code
    ensures LastPath(attributes, code) == Flat(segments)
  {
    if i < |attributes| - 1 {
      OnlyPath(attributes[..|attributes| - 1], code, i, segments);
    }
  }

  lemma PathEntry(m: Message, i: nat, code: byte, segments: seq<Segment>)
    requires Interpret(m, 2).Ok? && i < |m.attrs|
    requires (code == 2 && ValidSegments(segments, 2)) || (code == 17 && ValidSegments(segments, 4))
    requires m.attrs[i].code == code
    requires m.attrs[i].data == EncodeSegments(segments, if code == 2 then 2 else 4)
    requires forall l | 0 <= l < |m.attrs| && l != i :: m.attrs[l].code != code
    ensures LastPath(Interpret(m, 2).value.attributes, code) == Flat(segments)
  {
    var u := Interpret(m, 2).value;
    forall l | 0 <= l < |m.attrs|
      ensures |u.attributes| == |m.attrs| && u.attributes[l].code == m.attrs[l].code
    {
      EntryKept(m, l, 2);
    }
    EntryKept(m, i, 2);
    DecodedPath(m.attrs[i], segments, 2);
    OnlyPath(u.attributes, code, i, segments);
  }

  lemma DecodedPath(a: WireAttr, segments: seq<Segment>, asnLen: nat)
    requires asnLen == 2 || asnLen == 4
    requires (a.code == 2 && ValidSegments(segments, asnLen)) || (a.code == 17 && ValidSegments(segments, 4))
    requires a.data == EncodeSegments(segments, if a.code == 2 then asnLen else 4)
    ensures AttrOf(a, asnLen).content == Value(AsPath(segments))
  {
    SegmentsRoundTrip(segments, if a.code == 2 then asnLen else 4);
  }

  // End to end: however the true path is split into segments, a message that carries it in two
  // octets with the substitute number, and its last k numbers in four, yields the true path.
  lemma PathReconstructed(m: Message, i: nat, j: nat, path: seq<nat>, k: nat, narrow: seq<Segment>, wide: seq<Segment>)
    requires k <= |path|
    requires forall l | 0 <= l < |path| - k :: path[l] < 65536
    requires ValidSegments(narrow, 2) && Flat(narrow) == Substituted(path)
    requires ValidSegments(wide, 4) && Flat(wide) == path[|path| - k..]
    requires Interpret(m, 2).Ok? && i < |m.attrs| && j < |m.attrs|
    requires m.attrs[i].code == 2 && m.attrs[i].data == EncodeSegments(narrow, 2)
    requires m.attrs[j].code == 17 && m.attrs[j].data == EncodeSegments(wide, 4)
    requires forall l | 0 <= l < |m.attrs| && l != i :: m.attrs[l].code != 2
    requires forall l | 0 <= l < |m.attrs| && l != j :: m.attrs[l].code != 17
    ensures var attributes := Interpret(m, 2).value.attributes;
            Merged(LastPath(attributes, 2), LastPath(attributes, 17)) == path
  {
    PathEntry(m, i, 2, narrow);
    PathEntry(m, j, 17, wide);
    MergeRestores(path, k);
  }
}
