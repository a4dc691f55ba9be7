/** What the shown form of a FlowSpec rule keeps and what it loses, exactly. */
module FlowSpecFidelity {
  import opened Base
  import opened Bits
  import opened Octets
  import opened Prefixes
  import opened FlowSpec
  import opened FlowSpecGrammar

  /* ---------- single tests ---------- */

  // The flag names tell the low n bits of a value and nothing else.
  lemma {:induction false} NamesTellLowBits(v: nat, w: nat, n: nat)
    ensures FlagNames(v, n) == FlagNames(w, n) <==> Low(v, n) == Low(w, n)
  {
    hide FlagNames, Low, Bit;
    if n == 0 {
      NoneBelowZero(v, w);
    } else {
      NamesTellLowBits(v, w, n - 1);
      LowBit(v, n - 1);
      LowBit(w, n - 1);
      TopName(v, n);
      TopName(w, n);
    }
  }

  lemma NoneBelowZero(v: nat, w: nat)
    ensures FlagNames(v, 0) == FlagNames(w, 0) && Low(v, 0) == Low(w, 0)
  {
  }

  // The names below the top one are its list without it.
  lemma TopName(v: nat, n: nat)
    requires n > 0
    ensures n - 1 in FlagNames(v, n) <==> Bit(v, n - 1)
    ensures FlagNames(v, n) == if Bit(v, n - 1) then FlagNames(v, n - 1) + [n - 1] else FlagNames(v, n - 1)
    ensures FlagNames(v, n - 1)
         == if Bit(v, n - 1) then FlagNames(v, n)[..|FlagNames(v, n)| - 1] else FlagNames(v, n)
  {
    hide And, Bit;
    NamesBelow(v, n - 1);
    AndBit(v, n - 1);
  }

  lemma {:induction false} NamesBelow(v: nat, n: nat)
    ensures forall k | k in FlagNames(v, n) :: k < n
  {
    if n > 0 {
      NamesBelow(v, n - 1);
    }
  }

  lemma NoNames(v: nat, n: nat)
    ensures FlagNames(v, n) == [] <==> Low(v, n) == 0
  {
    NamesTellLowBits(v, 0, n);
    NoneOfZero(n);
  }

  lemma {:induction false} NoneOfZero(n: nat)
    ensures FlagNames(0, n) == [] && Low(0, n) == 0
  {
    if n > 0 {
      NoneOfZero(n - 1);
    }
  }

  // Two tests of one component type that a reader of the shown form cannot tell apart: the AND
  // bit and the width never show, a DSCP value shows six bits, and a bit mask shows its named
  // bits only, unless none of them is set.
  predicate SameTest(kind: nat, o: WireOp, o': WireOp) {
    var v, v' := BeValue(o.value), BeValue(o'.value);
    if IsBitTest(kind) then
      var n := NamedBits(kind);
      Low(o.low, 2) == Low(o'.low, 2) && Low(v, n) == Low(v', n) && (Low(v, n) == 0 ==> v == v')
    else
      Low(o.low, 3) == Low(o'.low, 3) && (if kind == 11 then Low(v, 6) == Low(v', 6) else v == v')
  }

  lemma LowBits(x: nat)
    ensures Low(x, 2) == (if Bit(x, 0) then 1 else 0) + (if Bit(x, 1) then 2 else 0)
    ensures Low(x, 3) == Low(x, 2) + if Bit(x, 2) then 4 else 0
  {
    assert Pow2(0) == 1 && Pow2(1) == 2 && Pow2(2) == 4;
    LowBit(x, 0);
    LowBit(x, 1);
    LowBit(x, 2);
  }

  lemma ShownTestKernel(kind: nat, o: WireOp, o': WireOp)
    requires ValidOp(o) && ValidOp(o')
    ensures ShownOp(kind, o) == ShownOp(kind, o') <==> SameTest(kind, o, o')
  {
    LowBits(o.low);
    LowBits(o'.low);
    if IsBitTest(kind) {
      var v, v', n := BeValue(o.value), BeValue(o'.value), NamedBits(kind);
      NamesTellLowBits(v, v', n);
      NoNames(v, n);
      NoNames(v', n);
    }
  }

  /* ---------- components ---------- */

  predicate SameComponent(c: WireComponent, c': WireComponent) {
    c.kind == c'.kind
    && match (c, c')
       case (WirePrefixMatch(_, p), WirePrefixMatch(_, p')) => p == p'
       case (WireTests(kind, ops), WireTests(_, ops')) =>
         |ops| == |ops'| && forall i | 0 <= i < |ops| :: SameTest(kind, ops[i], ops'[i])
       case _ => false
  }

  lemma ShownComponentKernel(c: WireComponent, c': WireComponent, afi: nat)
    requires ValidComponent(c, afi) && ValidComponent(c', afi) && c.kind == c'.kind
    ensures ShownComponent(c, afi) == ShownComponent(c', afi) <==> SameComponent(c, c')
  {
    match (c, c')
    case (WirePrefixMatch(_, p), WirePrefixMatch(_, p')) =>
      if p.len == p'.len {
        var size := AddressSize(afi);
        assert Padded(p.raw, size)[..|p.raw|] == p.raw;
        assert Padded(p'.raw, size)[..|p'.raw|] == p'.raw;
      }
    case (WireTests(kind, ops), WireTests(_, ops')) =>
      if |ops| == |ops'| {
        forall i | 0 <= i < |ops|
          ensures ShownOp(kind, ops[i]) == ShownOp(kind, ops'[i]) <==> SameTest(kind, ops[i], ops'[i])
        {
          ShownTestKernel(kind, ops[i], ops'[i]);
        }
        if SameComponent(c, c') {
          assert ShownOps(kind, ops) == ShownOps(kind, ops');
        } else {
          var i :| 0 <= i < |ops| && !SameTest(kind, ops[i], ops'[i]);
          assert ShownOps(kind, ops)[i] != ShownOps(kind, ops')[i];
        }
      }
    case _ =>
  }

  /* ---------- rules ---------- */

  // A name is filed with the last component that carries it.
  lemma {:induction false} FiledLast(es: seq<Entry>, afi: nat, i: nat)
    requires i < |es|
    requires forall j | i < j < |es| :: es[j].0 != es[i].0
    ensures ComponentName(es[i].0, afi) in Filed(es, afi)
    ensures Filed(es, afi)[ComponentName(es[i].0, afi)] == es[i].1
  {
    var n := |es| - 1;
    if i < n {
      FiledLast(es[..n], afi, i);
      NameInjective(es[i].0, es[n].0, afi);
    }
  }

  lemma {:induction false} FiledNames(es: seq<Entry>, afi: nat, name: Name) returns (i: nat)
    requires name in Filed(es, afi)
    ensures i < |es| && ComponentName(es[i].0, afi) == name
  {
    var n := |es| - 1;
    if ComponentName(es[n].0, afi) == name {
      i := n;
    } else {
      i := FiledNames(es[..n], afi, name);
    }
  }

  // Component types in strictly increasing order, as section 4.2 of RFC 8955 asks of a rule.
  predicate Ascending(es: seq<Entry>) {
    forall i, j | 0 <= i < j < |es| :: es[i].0 < es[j].0
  }

  lemma LastNotBefore(es: seq<Entry>, afi: nat)
    requires es != [] && Ascending(es)
    ensures ComponentName(es[|es| - 1].0, afi) !in Filed(es[..|es| - 1], afi)
  {
    var n := |es| - 1;
    var name := ComponentName(es[n].0, afi);
    if name in Filed(es[..n], afi) {
      var i := FiledNames(es[..n], afi, name);
      NameInjective(es[i].0, es[n].0, afi);
    }
  }

  lemma WithoutLast(es: seq<Entry>, afi: nat)
    requires es != [] && Ascending(es)
    ensures Filed(es[..|es| - 1], afi) == Filed(es, afi) - {ComponentName(es[|es| - 1].0, afi)}
  {
    LastNotBefore(es, afi);
  }

  lemma LastKinds(es: seq<Entry>, es': seq<Entry>, afi: nat)
    requires es != [] && es' != [] && Ascending(es) && Ascending(es')
    requires Filed(es, afi) == Filed(es', afi)
    ensures es[|es| - 1].0 <= es'[|es'| - 1].0
  {
    var n := |es| - 1;
    FiledLast(es, afi, n);
    var i := FiledNames(es', afi, ComponentName(es[n].0, afi));
    NameInjective(es'[i].0, es[n].0, afi);
  }

  lemma SameLast(es: seq<Entry>, es': seq<Entry>, afi: nat)
    requires es != [] && es' != [] && Ascending(es) && Ascending(es')
    requires Filed(es, afi) == Filed(es', afi)
    ensures es[|es| - 1] == es'[|es'| - 1]
    ensures Filed(es[..|es| - 1], afi) == Filed(es'[..|es'| - 1], afi)
  {
    LastKinds(es, es', afi);
    LastKinds(es', es, afi);
    FiledLast(es, afi, |es| - 1);
    FiledLast(es', afi, |es'| - 1);
    WithoutLast(es, afi);
    WithoutLast(es', afi);
  }

  lemma SameEnds<T>(a: seq<T>, b: seq<T>)
    requires a != [] && b != [] && a[..|a| - 1] == b[..|b| - 1] && a[|a| - 1] == b[|b| - 1]
    ensures a == b
  {
    assert a == a[..|a| - 1] + [a[|a| - 1]];
    assert b == b[..|b| - 1] + [b[|b| - 1]];
  }

  lemma NothingFiled(es: seq<Entry>, afi: nat)
    ensures Filed(es, afi) == map[] <==> es == []
  {
    if es != [] {
      FiledLast(es, afi, |es| - 1);
    }
  }

  // In that order, filing by name loses nothing, not even the order.
  lemma {:induction false} FiledInjective(es: seq<Entry>, es': seq<Entry>, afi: nat)
    requires Ascending(es) && Ascending(es')
    requires Filed(es, afi) == Filed(es', afi)
    ensures es == es'
    decreases |es|
  {
    NothingFiled(es, afi);
    NothingFiled(es', afi);
    if es != [] {
      var n, n' := |es| - 1, |es'| - 1;
      SameLast(es, es', afi);
      FiledInjective(es[..n], es'[..n'], afi);
      SameEnds(es, es');
    }
  }

  predicate AscendingRule(r: WireRule) {
    forall i, j | 0 <= i < j < |r.components| :: r.components[i].kind < r.components[j].kind
  }

  predicate SameRule(r: WireRule, r': WireRule) {
    && |r.components| == |r'.components|
    && forall i | 0 <= i < |r.components| :: SameComponent(r.components[i], r'.components[i])
  }

  /* ---------- rules in any order ---------- */

  // The component of a type that is shown: the last one.
  function LastOf(cs: seq<WireComponent>, kind: nat): Option<WireComponent> {
    if cs == [] then None
    else if cs[|cs| - 1].kind == kind then Some(cs[|cs| - 1])
    else LastOf(cs[..|cs| - 1], kind)
  }

  lemma EntriesFront(cs: seq<WireComponent>, afi: nat)
    requires cs != [] && ValidComponents(cs, afi)
    ensures ValidComponents(cs[..|cs| - 1], afi)
    ensures Entries(cs, afi)[..|cs| - 1] == Entries(cs[..|cs| - 1], afi)
  {
    hide ShownComponent, ValidComponent;
  }

  // What is filed under a name is what the last component of that type shows.
  lemma {:induction false} FiledIsLast(cs: seq<WireComponent>, afi: nat, kind: byte)
    requires ValidComponents(cs, afi)
    ensures ComponentName(kind, afi) in Filed(Entries(cs, afi), afi) <==> LastOf(cs, kind).Some?
    ensures LastOf(cs, kind).Some? ==>
              var c := LastOf(cs, kind).value;
              c in cs && c.kind == kind && ValidComponent(c, afi)
              && Filed(Entries(cs, afi), afi)[ComponentName(kind, afi)] == ShownComponent(c, afi)
  {
    hide ShownComponent, ValidComponent, ComponentName, Entries;
    if cs == [] {
      NoEntries(afi);
    } else {
      var n := |cs| - 1;
      EntriesFront(cs, afi);
      FiledIsLast(cs[..n], afi, kind);
      assert ValidComponent(cs[n], afi);
      KindIsByte(cs[n], afi);
      NameInjective(kind, cs[n].kind, afi);
    }
  }

  lemma NoEntries(afi: nat)
    ensures Entries([], afi) == []
  {
  }

  lemma KindIsByte(c: WireComponent, afi: nat)
    requires ValidComponent(c, afi)
    ensures c.kind < 256
  {
  }

  // The last components of one type, if any, are alike.
  predicate SameOfKind(r: WireRule, r': WireRule, kind: nat) {
    var c, c' := LastOf(r.components, kind), LastOf(r'.components, kind);
    (c.Some? <==> c'.Some?) && (c.Some? ==> SameComponent(c.value, c'.value))
  }

  // Any two rules are shown alike exactly when, type by type, their last components are alike.
  lemma ShownRuleKernel(r: WireRule, r': WireRule, afi: nat)
    requires ValidRule(r, afi) && ValidRule(r', afi)
    ensures ShownRule(r, afi) == ShownRule(r', afi) <==> forall kind: byte :: SameOfKind(r, r', kind)
  {
    hide ShownComponent, ValidComponent, SameComponent, ComponentName, Entries, Filed, LastOf;
    forall kind: byte
      ensures SameOfKind(r, r', kind) <==> SameUnder(ShownRule(r, afi), ShownRule(r', afi), ComponentName(kind, afi))
    {
      KindUnderName(r, r', afi, kind);
    }
    SameUnderAll(r, r', afi);
  }

  // Two rules show the same under one name, or both nothing.
  predicate SameUnder(a: Rule, b: Rule, name: Name) {
    (name in a <==> name in b) && (name in a ==> a[name] == b[name])
  }

  lemma KindUnderName(r: WireRule, r': WireRule, afi: nat, kind: byte)
    requires ValidRule(r, afi) && ValidRule(r', afi)
    ensures SameOfKind(r, r', kind) <==> SameUnder(ShownRule(r, afi), ShownRule(r', afi), ComponentName(kind, afi))
  {
    hide ShownComponent, ValidComponent, SameComponent, ComponentName, Entries, Filed, LastOf;
    hide ShownRule;
    RuleIsFiled(r, afi);
    RuleIsFiled(r', afi);
    FiledIsLast(r.components, afi, kind);
    FiledIsLast(r'.components, afi, kind);
    var c, c' := LastOf(r.components, kind), LastOf(r'.components, kind);
    if c.Some? && c'.Some? {
      ShownComponentKernel(c.value, c'.value, afi);
    }
  }

  lemma SameUnderAll(r: WireRule, r': WireRule, afi: nat)
    requires ValidRule(r, afi) && ValidRule(r', afi)
    ensures ShownRule(r, afi) == ShownRule(r', afi)
       <==> forall kind: byte :: SameUnder(ShownRule(r, afi), ShownRule(r', afi), ComponentName(kind, afi))
  {
    hide ShownComponent, ValidComponent, ComponentName, Entries, Filed, ShownRule;
    RuleIsFiled(r, afi);
    RuleIsFiled(r', afi);
    var a, b := ShownRule(r, afi), ShownRule(r', afi);
    if forall kind: byte :: SameUnder(a, b, ComponentName(kind, afi)) {
      forall name | name in a || name in b ensures SameUnder(a, b, name) {
        if name in a {
          var i := FiledNames(Entries(r.components, afi), afi, name);
        } else {
          var i := FiledNames(Entries(r'.components, afi), afi, name);
        }
      }
      assert a == b;
    }
  }

  /* ---------- when nothing is hidden ---------- */

  predicate DistinctKinds(cs: seq<WireComponent>) {
    forall i, j | 0 <= i < j < |cs| :: cs[i].kind != cs[j].kind
  }

  // As many components are shown as the rule has exactly when no type repeats.
  lemma {:induction false} ShownCount(cs: seq<WireComponent>, afi: nat)
    requires ValidComponents(cs, afi)
    ensures |Filed(Entries(cs, afi), afi)| <= |cs|
    ensures |Filed(Entries(cs, afi), afi)| == |cs| <==> DistinctKinds(cs)
  {
    hide ShownComponent, ValidComponent, ComponentName, Entries, LastOf;
    if cs == [] {
      NoEntries(afi);
    } else {
      var n := |cs| - 1;
      assert ValidComponent(cs[n], afi);
      KindIsByte(cs[n], afi);
      EntriesFront(cs, afi);
      ShownCount(cs[..n], afi);
      FiledIsLast(cs[..n], afi, cs[n].kind);
      LastOfFinds(cs[..n], cs[n].kind);
      assert DistinctKinds(cs) <==> DistinctKinds(cs[..n]) && LastOf(cs[..n], cs[n].kind).None?;
    }
  }

  lemma {:induction false} LastOfFinds(cs: seq<WireComponent>, kind: nat)
    ensures LastOf(cs, kind).Some? <==> exists i :: 0 <= i < |cs| && cs[i].kind == kind
  {
    if cs != [] {
      LastOfFinds(cs[..|cs| - 1], kind);
    }
  }

  lemma {:induction false} DistinctLast(cs: seq<WireComponent>, i: nat)
    requires i < |cs| && DistinctKinds(cs)
    ensures LastOf(cs, cs[i].kind) == Some(cs[i])
  {
    if i < |cs| - 1 {
      DistinctLast(cs[..|cs| - 1], i);
    }
  }

  // A rule shows every one of its components if and only if their types are pairwise distinct.
  lemma AllShownWhenDistinct(r: WireRule, afi: nat)
    requires ValidRule(r, afi)
    ensures |ShownRule(r, afi)| == |r.components| <==> DistinctKinds(r.components)
    ensures DistinctKinds(r.components) ==>
              forall i | 0 <= i < |r.components| ::
                LastOf(r.components, r.components[i].kind) == Some(r.components[i])
  {
    hide ShownRule;
    RuleIsFiled(r, afi);
    ShownCount(r.components, afi);
    if DistinctKinds(r.components) {
      forall i | 0 <= i < |r.components|
        ensures LastOf(r.components, r.components[i].kind) == Some(r.components[i])
      {
        DistinctLast(r.components, i);
      }
    }
  }

  // Of several components of one type only the last one is kept.
  lemma DuplicateKeepsLast(r: WireRule, afi: nat, i: nat)
    requires ValidRule(r, afi) && i < |r.components|
    requires forall j | i < j < |r.components| :: r.components[j].kind != r.components[i].kind
    ensures TypeName(r.components[i].kind, afi) in ShownRule(r, afi)
    ensures ShownRule(r, afi)[TypeName(r.components[i].kind, afi)] == ShownComponent(r.components[i], afi)
  {
    hide ShownRule, ShownComponent, ComponentName, TypeName, Filed;
    assert ValidComponent(r.components[i], afi);
    TablesAgree(r.components[i].kind, afi);
    RuleIsFiled(r, afi);
    FiledLast(Entries(r.components, afi), afi, i);
  }

  /* ---------- rules in the prescribed order ---------- */

  lemma EntriesAlike(r: WireRule, r': WireRule, afi: nat)
    requires ValidRule(r, afi) && ValidRule(r', afi)
    ensures Entries(r.components, afi) == Entries(r'.components, afi) <==> SameRule(r, r')
  {
    hide ShownComponent, SameComponent, ValidComponent;
    var cs, cs' := r.components, r'.components;
    var es, es' := Entries(cs, afi), Entries(cs', afi);
    if |cs| == |cs'| {
      forall i | 0 <= i < |cs| ensures es[i] == es'[i] <==> SameComponent(cs[i], cs'[i]) {
        assert ValidComponent(cs[i], afi) && ValidComponent(cs'[i], afi);
        OneAlike(cs[i], cs'[i], afi);
      }
    }
  }

  lemma OneAlike(c: WireComponent, c': WireComponent, afi: nat)
    requires ValidComponent(c, afi) && ValidComponent(c', afi)
    ensures (c.kind, ShownComponent(c, afi)) == (c'.kind, ShownComponent(c', afi)) <==> SameComponent(c, c')
  {
    hide ShownComponent;
    if c.kind == c'.kind {
      ShownComponentKernel(c, c', afi);
    }
  }

  // Between rules in that order even the order is told: they are shown alike exactly when they
  // are alike component by component.
  lemma AscendingRuleKernel(r: WireRule, r': WireRule, afi: nat)
    requires ValidRule(r, afi) && ValidRule(r', afi) && AscendingRule(r) && AscendingRule(r')
    ensures ShownRule(r, afi) == ShownRule(r', afi) <==> SameRule(r, r')
  {
    hide ShownComponent, SameComponent, ValidComponent, Filed, SameRule, ShownRule;
    RuleIsFiled(r, afi);
    RuleIsFiled(r', afi);
    EntriesAlike(r, r', afi);
    if ShownRule(r, afi) == ShownRule(r', afi) {
      FiledInjective(Entries(r.components, afi), Entries(r'.components, afi), afi);
    }
  }
}
