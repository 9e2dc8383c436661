/** The diamond-cut planner for the session day-lock upgrade: four checks on a fresh loupe read, then a plan
    of one Remove and two Adds. A diamond is its selector-to-facet table; a cut reverts as a whole. */
module CutPlan {
  import opened ByteStrings

  type Address = nat
  /** The hexadecimal text of a four-byte selector. */
  type Selector = Bytes
  type Diamond = map<Selector, Address>

  const ZERO_ADDRESS: Address := 0

  datatype Action = Add | Remove
  datatype Cut = Cut(facet: Address, action: Action, selectors: seq<Selector>)

  function FacetAddress(d: Diamond, s: Selector): Address
  {
    if s in d then d[s] else ZERO_ADDRESS
  }

  // ---- applying cuts ----

  /** Adding a selector that some facet serves reverts. */
  function AddAll(d: Diamond, facet: Address, selectors: seq<Selector>): Option<Diamond>
    decreases |selectors|
  {
    if selectors == [] then Some(d)
    else if selectors[0] in d then None
    else AddAll(d[selectors[0] := facet], facet, selectors[1..])
  }

  /** Removing a selector that the named facet does not serve reverts. */
  function RemoveAll(d: Diamond, facet: Address, selectors: seq<Selector>): Option<Diamond>
  {
    if selectors == [] then Some(d)
    else if FacetAddress(d, selectors[0]) != facet then None
    else RemoveAll(d - {selectors[0]}, facet, selectors[1..])
  }

  /** A cut without selectors, of the zero address, or adding a facet without code reverts. */
  function Apply(d: Diamond, cut: Cut, hasCode: Address -> bool): Option<Diamond>
  {
    if cut.selectors == [] || cut.facet == ZERO_ADDRESS then None
    else if cut.action.Remove? then RemoveAll(d, cut.facet, cut.selectors)
    else if !hasCode(cut.facet) then None
    else AddAll(d, cut.facet, cut.selectors)
  }

  function ApplyAll(d: Diamond, cuts: seq<Cut>, hasCode: Address -> bool): Option<Diamond>
    decreases |cuts|
  {
    if cuts == [] then Some(d)
    else match Apply(d, cuts[0], hasCode)
         case None => None
         case Some(next) => ApplyAll(next, cuts[1..], hasCode)
  }

  predicate Distinct(selectors: seq<Selector>)
  {
    forall i, j :: 0 <= i < j < |selectors| ==> selectors[i] != selectors[j]
  }

  lemma DistinctHead(selectors: seq<Selector>)
    requires selectors != []
    ensures Distinct(selectors) <==> selectors[0] !in selectors[1..] && Distinct(selectors[1..])
  {
    var t := selectors[1..];
    assert forall i :: 1 <= i < |selectors| ==> selectors[i] == t[i - 1] && t[i - 1] in t;
    assert forall i :: 0 <= i < |t| ==> t[i] == selectors[i + 1];
  }

  lemma DistinctConcat(a: seq<Selector>, b: seq<Selector>)
    ensures Distinct(a + b) <==> Distinct(a) && Distinct(b) && forall s :: s in a ==> s !in b
  {
    var c := a + b;
    assert forall i :: 0 <= i < |a| ==> c[i] == a[i] && a[i] in a;
    assert forall i :: 0 <= i < |b| ==> c[|a| + i] == b[i] && b[i] in b;
    assert forall i :: |a| <= i < |c| ==> c[i] == b[i - |a|];
    forall i, j | Distinct(c) && 0 <= i < |a| && 0 <= j < |b| ensures a[i] != b[j] {
      assert c[i] != c[|a| + j];
    }
  }

  /** `after` serves the selectors from the facet and everything else as before. */
  ghost predicate Routes(d: Diamond, after: Diamond, facet: Address, selectors: seq<Selector>)
  {
    forall s: Selector ::
      FacetOf(after, s) == if s in selectors then Some(facet) else FacetOf(d, s)
  }

  function FacetOf(d: Diamond, s: Selector): Option<Address>
  {
    if s in d then Some(d[s]) else None
  }

  /** An Add goes through exactly for distinct selectors that nobody serves yet. */
  lemma {:induction false} AddAllIff(d: Diamond, facet: Address, selectors: seq<Selector>)
    ensures var after := AddAll(d, facet, selectors);
            && (after.Some? <==> Distinct(selectors) && forall s :: s in selectors ==> s !in d)
            && (after.Some? ==> Routes(d, after.value, facet, selectors))
    decreases |selectors|
  {
    if selectors != [] {
      var head, tail := selectors[0], selectors[1..];
      var next := d[head := facet];
      assert selectors == [head] + tail;
      DistinctHead(selectors);
      AddAllIff(next, facet, tail);
      assert head in next;
      assert forall s :: s in d ==> s in next;
    }
  }

  /** A Remove goes through exactly for distinct selectors that the facet serves. */
  lemma {:induction false} RemoveAllIff(d: Diamond, facet: Address, selectors: seq<Selector>)
    requires facet != ZERO_ADDRESS
    ensures var after := RemoveAll(d, facet, selectors);
            && (after.Some? <==> Distinct(selectors) && forall s :: s in selectors ==> FacetAddress(d, s) == facet)
            && (after.Some? ==> forall s :: FacetOf(after.value, s) == if s in selectors then None else FacetOf(d, s))
  {
    if selectors != [] {
      var head, tail := selectors[0], selectors[1..];
      var next := d - {head};
      assert selectors == [head] + tail;
      DistinctHead(selectors);
      RemoveAllIff(next, facet, tail);
      assert head !in next;
      assert forall s :: s != head ==> FacetOf(next, s) == FacetOf(d, s) && FacetAddress(next, s) == FacetAddress(d, s);
    }
  }

  // ---- the planner ----

  /** Splits at every comma, trims, lower-cases and drops empty entries. */
  function Allowed(text: Bytes): set<Selector>
    decreases |text|
  {
    var i := IndexByte(text, ',' as int);
    if i < 0 then Entry(text) else Entry(text[..i]) + Allowed(text[i + 1..])
  }

  function Entry(part: Bytes): set<Selector>
  {
    var e := Lower(TrimSpace(part));
    if e == [] then {} else {e}
  }

  /** A stretch of the text between two commas or ends, without one inside. */
  ghost predicate IsPart(text: Bytes, a: nat, b: nat)
  {
    && a <= b <= |text| && (a == 0 || text[a - 1] == 44) && (b == |text| || text[b] == 44)
    && forall k :: a <= k < b ==> text[k] != 44
  }

  /** Some part of the text names s. */
  ghost predicate Lists(text: Bytes, name: Bytes -> Selector, s: Selector)
  {
    exists a: nat, b: nat :: IsPart(text, a, b) && name(text[a..b]) == s
  }

  lemma OnePart(text: Bytes, a: nat, b: nat)
    requires forall k :: 0 <= k < |text| ==> text[k] != 44
    ensures IsPart(text, a, b) <==> a == 0 && b == |text|
  {
  }

  lemma FirstPart(text: Bytes, i: nat, a: nat, b: nat)
    requires i < |text| && text[i] == 44 && 44 !in text[..i] && a <= i
    ensures IsPart(text, a, b) <==> a == 0 && b == i
  {
    assert forall k :: 0 <= k < i ==> text[k] in text[..i];
  }

  lemma LaterPart(text: Bytes, i: nat, a: nat, b: nat)
    requires i < |text| && text[i] == 44 && a <= b
    ensures IsPart(text, a + i + 1, b + i + 1) <==> IsPart(text[i + 1..], a, b)
    ensures IsPart(text[i + 1..], a, b) ==> text[i + 1..][a..b] == text[a + i + 1..b + i + 1]
  {
    var rest := text[i + 1..];
    assert forall k :: i + 1 <= k < |text| ==> text[k] == rest[k - i - 1];
    assert forall k :: 0 <= k < |rest| ==> rest[k] == text[k + i + 1];
  }

  lemma ListsFirst(text: Bytes, name: Bytes -> Selector, i: nat)
    requires i < |text| && text[i] == 44 && 44 !in text[..i]
    ensures Lists(text, name, name(text[..i]))
  {
    FirstPart(text, i, 0, i);
    assert text[0..i] == text[..i];
  }

  lemma ListsLater(text: Bytes, name: Bytes -> Selector, i: nat, s: Selector)
    requires i < |text| && text[i] == 44 && Lists(text[i + 1..], name, s)
    ensures Lists(text, name, s)
  {
    var rest := text[i + 1..];
    var a: nat, b: nat :| IsPart(rest, a, b) && name(rest[a..b]) == s;
    LaterPart(text, i, a, b);
  }

  lemma ListsSplit(text: Bytes, name: Bytes -> Selector, i: nat, s: Selector)
    requires i < |text| && text[i] == 44 && 44 !in text[..i] && Lists(text, name, s)
    ensures s == name(text[..i]) || Lists(text[i + 1..], name, s)
  {
    var a: nat, b: nat :| IsPart(text, a, b) && name(text[a..b]) == s;
    if a <= i {
      FirstPart(text, i, a, b);
    } else {
      LaterPart(text, i, a - i - 1, b - i - 1);
    }
  }

  lemma ListsOne(text: Bytes, name: Bytes -> Selector, s: Selector)
    requires forall k :: 0 <= k < |text| ==> text[k] != 44
    ensures Lists(text, name, s) <==> s == name(text)
  {
    OnePart(text, 0, |text|);
    assert text[0..|text|] == text;
    if Lists(text, name, s) {
      var a: nat, b: nat :| IsPart(text, a, b) && name(text[a..b]) == s;
      OnePart(text, a, b);
    }
  }

  lemma ListsEither(text: Bytes, name: Bytes -> Selector, i: nat, s: Selector)
    requires i < |text| && text[i] == 44 && 44 !in text[..i]
    ensures Lists(text, name, s) <==> name(text[..i]) == s || Lists(text[i + 1..], name, s)
  {
    ListsFirst(text, name, i);
    if Lists(text, name, s) { ListsSplit(text, name, i, s); }
    if Lists(text[i + 1..], name, s) { ListsLater(text, name, i, s); }
  }

  lemma EntryIs(part: Bytes, e: Selector, s: Selector)
    requires e == Lower(TrimSpace(part))
    ensures s in Entry(part) <==> s != [] && s == e
  {
  }

  /** The text names exactly the selectors that a part of it shows, without the space around it and in lower case; an
      empty part names none. */
  lemma {:induction false} AllowedMeans(text: Bytes, name: Bytes -> Selector, s: Selector)
    requires forall part :: name(part) == Lower(TrimSpace(part))
    ensures s in Allowed(text) <==> s != [] && Lists(text, name, s)
    decreases |text|
  {
    var i := IndexByte(text, ',' as int);
    if i < 0 {
      forall k | 0 <= k < |text| ensures text[k] != 44 {
        assert text[k] in text;
      }
      ListsOne(text, name, s);
      EntryIs(text, name(text), s);
    } else {
      AllowedMeans(text[i + 1..], name, s);
      ListsEither(text, name, i, s);
      EntryIs(text[..i], name(text[..i]), s);
    }
  }

  /** ethers and the chain give selectors in lower case. */
  predicate Canonical(s: Selector)
  {
    Lower(s) == s
  }

  /** What the loupe promises about the selector list of a facet. */
  ghost predicate Enumerates(d: Diamond, facet: Address, list: seq<Selector>)
  {
    Distinct(list) && forall s :: s in list <==> s in d && d[s] == facet
  }

  ghost predicate WellFormed(d: Diamond)
  {
    forall s :: s in d ==> Canonical(s) && d[s] != ZERO_ADDRESS
  }

  predicate Foreign(d: Diamond, oldFacet: Address, s: Selector)
  {
    FacetAddress(d, s) != ZERO_ADDRESS && FacetAddress(d, s) != oldFacet
  }

  predicate Unexpected(s: Selector, kept: seq<Selector>, allowed: set<Selector>)
  {
    (forall k :: k in kept ==> Lower(k) != Lower(s)) && Lower(s) !in allowed
  }

  datatype Outcome =
    | Planned(cuts: seq<Cut>)
    | NoCode
    | NotRegistered
    | ServedElsewhere(selector: Selector)
    | UnexpectedDrops(selectors: seq<Selector>)
    | AlreadyRegistered

  function Cuts(oldFacet: Address, newFacet: Address, oldList: seq<Selector>, router: seq<Selector>,
                stats: seq<Selector>): seq<Cut>
  {
    [Cut(oldFacet, Remove, oldList), Cut(newFacet, Add, router), Cut(newFacet, Add, stats)]
  }

  /** No check stops the plan. */
  ghost predicate Clear(d: Diamond, hasCode: Address -> bool, newFacet: Address, oldFacet: Address,
                        oldList: seq<Selector>,
                  interfaces: seq<Selector>, allowed: set<Selector>)
  {
    && hasCode(newFacet)
    && oldFacet != ZERO_ADDRESS
    && (forall s :: s in interfaces ==> !Foreign(d, oldFacet, s))
    && (forall s :: s in oldList ==> !Unexpected(s, interfaces, allowed))
    && newFacet !in d.Values
  }

  /** No check stops the plan exactly when the new facet has code and serves nothing yet, closeSession is registered,
      nobody but its facet serves an interface selector, and each selector of that facet is in an interface, whatever
      the case of its letters, or in the allowlist. */
  lemma ClearMeans(d: Diamond, hasCode: Address -> bool, newFacet: Address, oldFacet: Address,
                   oldList: seq<Selector>, interfaces: seq<Selector>, allowed: set<Selector>)
    ensures Clear(d, hasCode, newFacet, oldFacet, oldList, interfaces, allowed) <==>
              && hasCode(newFacet) && oldFacet != 0
              && (forall s :: s in interfaces && s in d ==> d[s] == 0 || d[s] == oldFacet)
              && (forall s :: s in oldList ==>
                    Lower(s) in allowed || exists k :: k in interfaces && Lower(k) == Lower(s))
              && forall s :: s in d ==> d[s] != newFacet
  {
    if Clear(d, hasCode, newFacet, oldFacet, oldList, interfaces, allowed) {
      forall s | s in interfaces && s in d ensures d[s] == 0 || d[s] == oldFacet {
        assert !Foreign(d, oldFacet, s);
      }
      forall s | s in oldList ensures Lower(s) in allowed || exists k :: k in interfaces && Lower(k) == Lower(s) {
        assert !Unexpected(s, interfaces, allowed);
      }
    }
  }

  ghost predicate FirstForeign(d: Diamond, oldFacet: Address, selectors: seq<Selector>, hit: Selector, k: nat)
  {
    && k < |selectors| && selectors[k] == hit && Foreign(d, oldFacet, hit)
    && forall j :: 0 <= j < k ==> !Foreign(d, oldFacet, selectors[j])
  }

  /** Stops at the first interface selector that an unrelated facet serves. */
  method CollisionCheck(d: Diamond, oldFacet: Address, selectors: seq<Selector>) returns (hit: Option<Selector>)
    ensures hit.None? <==> forall s :: s in selectors ==> !Foreign(d, oldFacet, s)
    ensures hit.Some? ==> exists k :: FirstForeign(d, oldFacet, selectors, hit.value, k)
  {
    for k := 0 to |selectors|
      invariant forall j :: 0 <= j < k ==> !Foreign(d, oldFacet, selectors[j])
    {
      var current := FacetAddress(d, selectors[k]);
      if current != ZERO_ADDRESS && current != oldFacet {
        assert selectors[k] in selectors && FirstForeign(d, oldFacet, selectors, selectors[k], k);
        return Some(selectors[k]);
      }
    }
    hit := None;
  }

  /** The four checks in the order they are made, and the plan when all pass. */
  method Plan(d: Diamond, hasCode: Address -> bool, loupe: Address -> seq<Selector>, newFacet: Address,
              closeSession: Selector, router: seq<Selector>, stats: seq<Selector>, allowlist: Bytes)
    returns (r: Outcome)
    ensures var oldFacet, all := FacetAddress(d, closeSession), router + stats;
            && (r.Planned? <==> Clear(d, hasCode, newFacet, oldFacet, loupe(oldFacet), all, Allowed(allowlist)))
            && (r.Planned? ==> r.cuts == Cuts(oldFacet, newFacet, loupe(oldFacet), router, stats))
            && (r.NoCode? <==> !hasCode(newFacet))
            && (r.NotRegistered? <==> hasCode(newFacet) && (closeSession !in d || d[closeSession] == ZERO_ADDRESS))
            && (r.ServedElsewhere? ==> exists k :: FirstForeign(d, oldFacet, all, r.selector, k))
            && (r.ServedElsewhere? <==>
                  && hasCode(newFacet) && oldFacet != ZERO_ADDRESS
                  && exists s :: s in all && Foreign(d, oldFacet, s))
            && (r.UnexpectedDrops? ==> r.selectors != [])
            && (r.UnexpectedDrops? ==>
                  forall s :: s in r.selectors <==> s in loupe(oldFacet) && Unexpected(s, all, Allowed(allowlist)))
            && (r.AlreadyRegistered? ==> newFacet in d.Values)
  {
    if !hasCode(newFacet) {
      return NoCode;
    }
    var oldFacet := FacetAddress(d, closeSession);
    if oldFacet == ZERO_ADDRESS {
      return NotRegistered;
    }
    var oldList := loupe(oldFacet);
    var all := router + stats;
    var hit := CollisionCheck(d, oldFacet, all);
    if hit.Some? {
      return ServedElsewhere(hit.value);
    }
    var allowed := Allowed(allowlist);
    var isUnexpected := (s: Selector) => Unexpected(s, all, allowed);
    var unexpected := Select(oldList, isUnexpected);
    SelectMembers(oldList, isUnexpected);
    if |unexpected| > 0 {
      assert unexpected[0] in unexpected;
      return UnexpectedDrops(unexpected);
    }
    if newFacet in d.Values {
      return AlreadyRegistered;
    }
    r := Planned(Cuts(oldFacet, newFacet, oldList, router, stats));
  }

  // ---- what a cleared plan does ----

  /** The table after the Remove: only the old facet's selectors are gone. */
  lemma RemoveStep(d: Diamond, oldFacet: Address, oldList: seq<Selector>)
    requires oldFacet != ZERO_ADDRESS && Enumerates(d, oldFacet, oldList)
    ensures var after := RemoveAll(d, oldFacet, oldList);
            && after.Some?
            && forall s :: FacetOf(after.value, s) == if FacetOf(d, s) == Some(oldFacet) then None else FacetOf(d, s)
  {
    RemoveAllIff(d, oldFacet, oldList);
  }

  lemma AddsStep(d: Diamond, facet: Address, a: seq<Selector>, b: seq<Selector>)
    requires forall s :: s in a + b ==> s !in d
    ensures var first := AddAll(d, facet, a);
            var last := if first.Some? then AddAll(first.value, facet, b) else None;
            && (last.Some? <==> Distinct(a + b))
            && (last.Some? ==> Routes(d, last.value, facet, a + b))
  {
    AddAllIff(d, facet, a);
    DistinctConcat(a, b);
    assert forall s :: s in a || s in b ==> s in a + b;
    if Distinct(a) {
      var d1 := AddAll(d, facet, a).value;
      AddAllIff(d1, facet, b);
      assert forall s :: s in b ==> (s in d1 <==> FacetOf(d1, s).Some?);
    }
  }

  /** Who serves a selector once the upgrade is done. */
  function Upgraded(d: Diamond, s: Selector, all: seq<Selector>, newFacet: Address,
                    closeSession: Selector): Option<Address>
  {
    if s in all then Some(newFacet)
    else if FacetOf(d, s) == Some(FacetAddress(d, closeSession)) then None
    else FacetOf(d, s)
  }

  /** Applying a cleared plan never meets a collision: it goes through exactly when the interface selectors are
      distinct and the second interface is not empty. */
  lemma PlanApplies(d: Diamond, hasCode: Address -> bool, newFacet: Address, closeSession: Selector,
                    oldList: seq<Selector>, router: seq<Selector>, stats: seq<Selector>, allowed: set<Selector>)
    requires WellFormed(d) && !hasCode(ZERO_ADDRESS) && closeSession in router
    requires Enumerates(d, FacetAddress(d, closeSession), oldList)
    requires Clear(d, hasCode, newFacet, FacetAddress(d, closeSession), oldList, router + stats, allowed)
    ensures var after := ApplyAll(d, Cuts(FacetAddress(d, closeSession), newFacet, oldList, router, stats), hasCode);
            && (after.Some? <==> Distinct(router + stats) && stats != [])
            && (after.Some? ==> IsUpgrade(d, after.value, newFacet, closeSession, router + stats))
  {
    var oldFacet := FacetAddress(d, closeSession);
    RemoveStep(d, oldFacet, oldList);
    var d1 := RemoveAll(d, oldFacet, oldList).value;
    assert closeSession in oldList;
    forall s | s in router + stats ensures s !in d1 {
      assert !Foreign(d, oldFacet, s);
      assert FacetOf(d1, s).None?;
    }
    AddsStep(d1, newFacet, router, stats);
    ApplyThree(d, hasCode, Cut(oldFacet, Remove, oldList), Cut(newFacet, Add, router), Cut(newFacet, Add, stats));
  }

  lemma ApplyThree(d: Diamond, hasCode: Address -> bool, a: Cut, b: Cut, c: Cut)
    ensures ApplyAll(d, [a, b, c], hasCode) ==
              match Apply(d, a, hasCode)
              case None => None
              case Some(d1) => match Apply(d1, b, hasCode) case None => None case Some(d2) => Apply(d2, c, hasCode)
  {
    assert [a, b, c][1..] == [b, c] && [b, c][1..] == [c] && [c][1..] == [];
    if Apply(d, a, hasCode).Some? {
      var d1 := Apply(d, a, hasCode).value;
      assert ApplyAll(d, [a, b, c], hasCode) == ApplyAll(d1, [b, c], hasCode);
      if Apply(d1, b, hasCode).Some? {
        var d2 := Apply(d1, b, hasCode).value;
        assert ApplyAll(d1, [b, c], hasCode) == ApplyAll(d2, [c], hasCode) == Apply(d2, c, hasCode);
      }
    }
  }

  /** After the upgrade every interface selector is served by the new facet, every other facet keeps exactly
      what it served, the old facet is gone, and a selector is lost only when the operator allowed it. */
  lemma PlanSafe(d: Diamond, hasCode: Address -> bool, newFacet: Address, closeSession: Selector,
                 oldList: seq<Selector>, router: seq<Selector>, stats: seq<Selector>, allowlist: Bytes, after: Diamond)
    requires WellFormed(d) && !hasCode(ZERO_ADDRESS) && closeSession in router
    requires forall s :: s in router + stats ==> Canonical(s)
    requires Enumerates(d, FacetAddress(d, closeSession), oldList)
    requires Clear(d, hasCode, newFacet, FacetAddress(d, closeSession), oldList, router + stats, Allowed(allowlist))
    requires ApplyAll(d, Cuts(FacetAddress(d, closeSession), newFacet, oldList, router, stats), hasCode) == Some(after)
    ensures forall s :: s in router + stats <==> FacetOf(after, s) == Some(newFacet)
    ensures forall s :: s in d && d[s] != FacetAddress(d, closeSession) ==> FacetOf(after, s) == Some(d[s])
    ensures FacetAddress(d, closeSession) !in after.Values
    ensures forall s :: s in d && s !in after ==> d[s] == FacetAddress(d, closeSession) && s in Allowed(allowlist)
    ensures WellFormed(after)
  {
    var oldFacet, all, allowed := FacetAddress(d, closeSession), router + stats, Allowed(allowlist);
    PlanApplies(d, hasCode, newFacet, closeSession, oldList, router, stats, allowed);
    assert closeSession in all && closeSession in d && oldFacet in d.Values;
    RoutedToNew(d, after, newFacet, closeSession, all);
    OthersKept(d, after, newFacet, closeSession, all);
    OldGone(d, after, newFacet, closeSession, all);
    LostAllowed(d, after, newFacet, closeSession, all, oldList, allowed);
  }

  ghost predicate IsUpgrade(d: Diamond, after: Diamond, newFacet: Address, closeSession: Selector, all: seq<Selector>)
  {
    forall s :: FacetOf(after, s) == Upgraded(d, s, all, newFacet, closeSession)
  }

  lemma RoutedToNew(d: Diamond, after: Diamond, newFacet: Address, closeSession: Selector, all: seq<Selector>)
    requires IsUpgrade(d, after, newFacet, closeSession, all) && newFacet !in d.Values
    ensures forall s :: s in all <==> FacetOf(after, s) == Some(newFacet)
  {
    forall s ensures s in all <==> FacetOf(after, s) == Some(newFacet) {
      assert s in d ==> d[s] in d.Values;
    }
  }

  lemma OthersKept(d: Diamond, after: Diamond, newFacet: Address, closeSession: Selector, all: seq<Selector>)
    requires IsUpgrade(d, after, newFacet, closeSession, all) && WellFormed(d)
    requires forall s :: s in all ==> !Foreign(d, FacetAddress(d, closeSession), s)
    ensures forall s :: s in d && d[s] != FacetAddress(d, closeSession) ==> FacetOf(after, s) == Some(d[s])
  {
    forall s | s in d && d[s] != FacetAddress(d, closeSession) ensures FacetOf(after, s) == Some(d[s]) {
      assert s in all ==> !Foreign(d, FacetAddress(d, closeSession), s);
    }
  }

  lemma OldGone(d: Diamond, after: Diamond, newFacet: Address, closeSession: Selector, all: seq<Selector>)
    requires IsUpgrade(d, after, newFacet, closeSession, all) && WellFormed(d)
    requires newFacet != FacetAddress(d, closeSession) && newFacet != ZERO_ADDRESS
    requires forall s :: s in all ==> Canonical(s)
    ensures FacetAddress(d, closeSession) !in after.Values && WellFormed(after)
  {
    var oldFacet := FacetAddress(d, closeSession);
    forall s | s in after ensures Canonical(s) && after[s] != ZERO_ADDRESS && after[s] != oldFacet {
      assert FacetOf(after, s) == Some(after[s]);
    }
  }

  lemma LostAllowed(d: Diamond, after: Diamond, newFacet: Address, closeSession: Selector, all: seq<Selector>,
                    oldList: seq<Selector>, allowed: set<Selector>)
    requires IsUpgrade(d, after, newFacet, closeSession, all) && WellFormed(d)
    requires Enumerates(d, FacetAddress(d, closeSession), oldList)
    requires forall s :: s in all ==> Canonical(s)
    requires forall s :: s in oldList ==> !Unexpected(s, all, allowed)
    ensures forall s :: s in d && s !in after ==> d[s] == FacetAddress(d, closeSession) && s in allowed
  {
    forall s | s in d && s !in after ensures d[s] == FacetAddress(d, closeSession) && s in allowed {
      assert FacetOf(after, s).None? && s in oldList;
      DropAllowed(s, all, allowed);
    }
  }

  lemma DropAllowed(s: Selector, all: seq<Selector>, allowed: set<Selector>)
    requires !Unexpected(s, all, allowed) && Canonical(s) && s !in all
    requires forall k :: k in all ==> Canonical(k)
    ensures s in allowed
  {
  }

  /** Without distinct selectors the same checks pass and the transaction reverts. */
  lemma DuplicateReverts(d: Diamond, hasCode: Address -> bool, newFacet: Address, closeSession: Selector,
                         oldList: seq<Selector>, router: seq<Selector>, allowed: set<Selector>)
    requires WellFormed(d) && !hasCode(ZERO_ADDRESS) && closeSession in router
    requires Enumerates(d, FacetAddress(d, closeSession), oldList)
    requires Clear(d, hasCode, newFacet, FacetAddress(d, closeSession), oldList, router + [closeSession], allowed)
    ensures ApplyAll(d, Cuts(FacetAddress(d, closeSession), newFacet, oldList, router, [closeSession]), hasCode).None?
  {
    PlanApplies(d, hasCode, newFacet, closeSession, oldList, router, [closeSession], allowed);
    DistinctConcat(router, [closeSession]);
    assert closeSession in [closeSession] && !Distinct(router + [closeSession]);
  }
}
