/**
 * Declarations that are applied again by a link status: exactly which values the message loses, and
 * the runs from the empty store in which declarations that did not change lose one.
 */
module ParameterReapply {
  import opened Common
  import opened Naming
  import opened ParameterStore
  import opened ParameterInvariants
  import opened ParameterTwin
  import opened ParameterDeclarations
  import opened ParameterAgreement

  // ---- what a link status loses ----

  /** The declarations a link status applies again. */
  function AppliedBy(st: Store, m: Message, forced: string): seq<Entry>
    requires m.LinkStatus?
  {
    Plan(if m.protocol in st.declared then st.declared[m.protocol] else [],
      Names(forced, if m.deviceType != "" then m.deviceType else m.protocol))
  }

  /** Every protocol that has served the device has listed its points by now, and none lists this one. */
  ghost predicate Unlisted(st: Store, m: Message, point: Point)
    requires m.LinkStatus?
  {
    forall p | p in st.protocols || p == m.protocol ::
      ListOf(st, m, p).Some? && point !in ListOf(st, m, p).value
  }

  /** What a link status makes known. */
  lemma LinkStatusInforms(st: Store, m: Message, forced: string)
    requires m.LinkStatus?
    ensures var after := OnMessage(st, m, forced);
            && after.deviceType == m.deviceType && after.declared == st.declared
            && (forall p :: p in after.protocols <==> p in st.protocols || p == m.protocol)
            && (forall p {:trigger p in after.listed} :: p in after.listed <==> ListOf(st, m, p).Some?)
            && (forall p {:trigger after.listed[p]} | p in after.listed :: Some(after.listed[p]) == ListOf(st, m, p))
  {
    hide Inv, ApplyEntries, Plan, ListedBy;
    LinkStatusIs(st, m, forced);
    ApplyEntriesContext(PrunedBy(st, m), AppliedBy(st, m, forced));
  }

  lemma UnlistedIs(st: Store, m: Message, point: Point)
    requires m.LinkStatus?
    ensures var configured := ConfiguredPoints(Informed(Fresh(st), m));
            Unlisted(st, m, point) <==> configured.Some? && point !in configured.value
  {
    var informed := Informed(Fresh(st), m);
    assert forall p :: p in informed.protocols <==> p in st.protocols || p == m.protocol;
    assert forall p :: p in informed.listed <==> ListOf(st, m, p).Some?;
    assert forall p | p in informed.listed :: Some(informed.listed[p]) == ListOf(st, m, p);
    hide ListOf, Informed;
    var configured := ConfiguredPoints(informed);
    if configured.Some? && point !in configured.value {
      forall p | p in st.protocols || p == m.protocol
        ensures ListOf(st, m, p).Some? && point !in ListOf(st, m, p).value
      {
        assert p in informed.protocols && p in informed.listed;
      }
    }
    if Unlisted(st, m, point) {
      forall p | p in informed.protocols
        ensures p in informed.listed && point !in informed.listed[p]
      {
        assert ListOf(st, m, p).Some?;
      }
    }
  }

  lemma PruneKeepsExactly(st: Store, configured: seq<Point>, place: Place)
    requires Inv(st.ledger)
    ensures var l, after := st.ledger, Prune(st, configured).ledger;
            && (place in after.values <==> place in l.values && place in l.owner && l.owner[place] in configured)
            && (place in after.values ==> place in after.owner && after.owner[place] == l.owner[place])
  {
    hide Inverse, OneKey, OneShape;
  }

  /** The store a link status applies the declarations to. */
  function PrunedBy(st: Store, m: Message): Store
    requires m.LinkStatus?
  {
    var informed := Informed(Fresh(st), m);
    var configured := ConfiguredPoints(informed);
    if configured.Some? then Prune(informed, configured.value) else informed
  }

  lemma LinkStatusIs(st: Store, m: Message, forced: string)
    requires m.LinkStatus?
    ensures OnMessage(st, m, forced) == ApplyEntries(PrunedBy(st, m), AppliedBy(st, m, forced))
  {
    hide Prune, ApplyEntries, Plan;
    var informed := Informed(Fresh(st), m);
    var configured := ConfiguredPoints(informed);
    if configured.Some? {
      PruneContext(informed, configured.value);
    }
  }

  lemma PrunedIs(st: Store, m: Message, place: Place)
    requires Inv(st.ledger) && m.LinkStatus? && place in st.ledger.values && place in st.ledger.owner
    ensures var after := PrunedBy(st, m).ledger;
            && Inv(after)
            && (place in after.values <==> !Unlisted(st, m, st.ledger.owner[place]))
            && (place in after.values ==> place in after.owner && after.owner[place] == st.ledger.owner[place])
  {
    hide Inv, Prune, ListedBy, Tracked;
    FreshKeeps(st);
    var informed := Informed(Fresh(st), m);
    var configured := ConfiguredPoints(informed);
    UnlistedIs(st, m, st.ledger.owner[place]);
    if configured.Some? {
      PruneKeepsExactly(informed, configured.value, place);
      PruneKeeps(informed, configured.value);
    }
  }

  /**
   * A link status loses the values of points that are listed no more, and what applying the
   * declarations again loses, and no other.
   */
  lemma LinkStatusLosesExactly(st: Store, m: Message, forced: string, place: Place)
    requires Inv(st.ledger) && m.LinkStatus? && place in st.ledger.values
    ensures place in st.ledger.owner
    ensures place !in OnMessage(st, m, forced).ledger.values <==>
            Unlisted(st, m, st.ledger.owner[place]) || Loses(st.ledger, AppliedBy(st, m, forced), place)
  {
    assert place in st.ledger.owner;
    hide Inv, PrunedBy, ApplyEntries, Plan, Loses, OnMessage, Unlisted, Informed;
    var pruned, entries := PrunedBy(st, m), AppliedBy(st, m, forced);
    LinkStatusIs(st, m, forced);
    PrunedIs(st, m, place);
    PlanNamed(if m.protocol in st.declared then st.declared[m.protocol] else [],
      Names(forced, if m.deviceType != "" then m.deviceType else m.protocol));
    ApplyLosesExactly(pruned, entries, place);
    if place in pruned.ledger.values {
      SameOwnerSameLoss(st.ledger, pruned.ledger, entries, place);
    }
  }

  lemma PruneContext(st: Store, configured: seq<Point>)
    ensures var after := Prune(st, configured); after.declared == st.declared && after.deviceType == st.deviceType
  {
  }

  lemma SameOwnerSameLoss(a: Ledger, b: Ledger, entries: seq<Entry>, place: Place)
    requires place in a.owner && place in b.owner && a.owner[place] == b.owner[place]
    ensures Loses(a, entries, place) <==> Loses(b, entries, place)
  {
    hide Among, OwnerLeaves, TakenAfter;
  }

  // ---- descriptor, write, link status ----

  function Declared(protocol: Protocol, declared: seq<Declaration>, point: Point, value: Value): seq<Message> {
    [Capabilities(protocol, declared), Command(protocol, None, Successful, Write(Some(point), Some(value)))]
  }

  /** The descriptor's declarations applied to the empty store. */
  lemma DescriptorStep(protocol: Protocol, declared: seq<Declaration>, forced: string)
    ensures OnMessage(EMPTY, Capabilities(protocol, declared), forced)
         == ApplyEntries(EMPTY.(declared := map[protocol := declared]), Plan(declared, Names(forced, protocol)))
  {
    hide ApplyEntries, Plan;
    assert EMPTY.declared[protocol := declared] == map[protocol := declared] && Fresh(EMPTY) == EMPTY;
    assert ReleaseAll(EMPTY, [], declared) == EMPTY;
  }

  /** Where the last entry of a point puts it. */
  lemma {:induction false} PlacementIs(st: Store, entries: seq<Entry>, i: nat)
    requires LastOf(entries, |entries|, i)
    ensures var after := PlaceAll(st, entries);
            entries[i].point in after.placement && after.placement[entries[i].point] == InSets(entries[i].sets)
    decreases |entries|
  {
    hide Settle;
    var e, rest := entries[0], entries[1..];
    var next := PlacePoint(st, e.point, InSets(e.sets), e.key);
    if i > 0 {
      assert rest[i - 1] == entries[i] && forall k | i - 1 < k < |rest| :: rest[k] == entries[k + 1];
      PlacementIs(next, rest, i - 1);
    } else {
      assert forall k | 0 <= k < |rest| :: rest[k] == entries[k + 1];
      PlacementKept(next, rest, e.point);
    }
  }

  lemma {:induction false} PlacementKept(st: Store, entries: seq<Entry>, point: Point)
    requires point in st.placement && forall k | 0 <= k < |entries| :: entries[k].point != point
    ensures var after := PlaceAll(st, entries);
            point in after.placement && after.placement[point] == st.placement[point]
    decreases |entries|
  {
    hide Settle;
    if entries != [] {
      var e, rest := entries[0], entries[1..];
      assert forall k | 0 <= k < |rest| :: rest[k] == entries[k + 1];
      PlacementKept(PlacePoint(st, e.point, InSets(e.sets), e.key), rest, point);
    }
  }

  /** A successful write of a placed point. */
  lemma WriteStep(st: Store, protocol: Protocol, point: Point, sets: seq<SetName>, value: Value, forced: string)
    requires point in st.placement && st.placement[point] == InSets(sets) && st.listed == map[]
    ensures var l := Fresh(st).ledger;
            OnMessage(st, Command(protocol, None, Successful, Write(Some(point), Some(value))), forced)
            == Fresh(st).(ledger := PutAll(l, point, KeyOf(l, point), sets, value))
  {
    hide PutAll;
    var start := Fresh(st);
    var put := PutAll(start.ledger, point, KeyOf(start.ledger, point), sets, value);
    var fallback := SetFor(NamesFor(start, protocol, forced), "");
    assert [(point, value)][1..] == [];
    assert ApplyResults(start.(ledger := put), [], None, fallback) == start.(ledger := put);
  }

  /** After the descriptor and the write, the place of a landed entry carries the value. */
  lemma WrittenValue(protocol: Protocol, declared: seq<Declaration>, forced: string, i: nat, fragment: SetName,
      value: Value)
    requires var entries := Plan(declared, Names(forced, protocol));
             LastOf(entries, |entries|, i) && Lands(EMPTY.ledger, entries, i, fragment)
    ensures var e := Plan(declared, Names(forced, protocol))[i];
            var place, st := Place(fragment, e.key), Run(EMPTY, Declared(protocol, declared, e.point, value), forced);
            && Inv(st.ledger) && Owns(st.ledger, e.point, place) && place in st.ledger.values
                && st.ledger.values[place] == value
            && st.declared == map[protocol := declared] && st.listed == map[] && st.deviceType == ""
                && st.protocols == []
  {
    hide Plan, Lands, Inv, OnMessage, PutAll;
    var entries := Plan(declared, Names(forced, protocol));
    var e := entries[i];
    var place, run := Place(fragment, e.key), Declared(protocol, declared, e.point, value);
    PlanNamed(declared, Names(forced, protocol));
    assert e in entries;
    DescriptorStep(protocol, declared, forced);
    DescriptorPlaces(protocol, declared, entries, i, fragment);
    var first := ApplyEntries(EMPTY.(declared := map[protocol := declared]), entries);
    hide ApplyEntries;
    WriteStep(first, protocol, e.point, e.sets, value, forced);
    FreshKeeps(first);
    HeldIsWritten(Fresh(first).ledger, e.point, e.sets, value, place);
    RunTwo(EMPTY, run, forced);
  }

  /** After the descriptor, the point of a landed entry holds its place and is recorded in its sets. */
  lemma DescriptorPlaces(protocol: Protocol, declared: seq<Declaration>, entries: seq<Entry>, i: nat, fragment: SetName)
    requires Named(entries) && LastOf(entries, |entries|, i) && Lands(EMPTY.ledger, entries, i, fragment)
    ensures fragment in entries[i].sets
    ensures var start, e := EMPTY.(declared := map[protocol := declared]), entries[i];
            var first := ApplyEntries(start, entries);
            && Inv(first.ledger) && Owns(first.ledger, e.point, Place(fragment, e.key))
            && e.point in first.placement && first.placement[e.point] == InSets(e.sets)
            && first == start.(ledger := first.ledger, placement := first.placement)
  {
    var start, e := EMPTY.(declared := map[protocol := declared]), entries[i];
    assert Inv(start.ledger);
    LandedSet(EMPTY.ledger, entries, i, fragment);
    hide Lands, Inv, GiveUp, PlaceAll, Wanted;
    DeclarationLands(start, entries, e.point, Place(fragment, e.key));
    AppliedInv(start, entries);
    ApplyEntriesContext(start, entries);
    PlacementIs(start.(ledger := GiveUp(start.ledger, entries, Wanted(entries, map[]))), entries, i);
  }

  lemma LandedSet(l: Ledger, entries: seq<Entry>, i: nat, fragment: SetName)
    requires i < |entries| && Lands(l, entries, i, fragment)
    ensures fragment in entries[i].sets
  {
  }

  lemma HeldIsWritten(l: Ledger, point: Point, sets: seq<SetName>, value: Value, place: Place)
    requires Inv(l) && point != "" && Owns(l, point, place) && place.fragment in sets
    ensures var after := PutAll(l, point, KeyOf(l, point), sets, value);
            Inv(after) && Owns(after, point, place) && place in after.values && after.values[place] == value
  {
    assert place.key == KeyOf(l, point) && Claimable(l, place, point);
    hide Inv, PutAll, Claimable;
    PutAllKeeps(l, point, KeyOf(l, point), sets, value);
    WrittenAt(l, point, sets, value, place);
  }

  lemma RunTwo(st: Store, run: seq<Message>, forced: string)
    requires |run| == 2
    ensures Run(st, run, forced) == OnMessage(OnMessage(st, run[0], forced), run[1], forced)
  {
    hide OnMessage;
    assert run[1..][1..] == [];
    assert Run(OnMessage(st, run[0], forced), run[1..], forced)
        == Run(OnMessage(OnMessage(st, run[0], forced), run[1], forced), run[1..][1..], forced);
  }

  /**
   * From the empty store: a descriptor, a write of a point it declares, and a link status that changes
   * nothing. The value written is lost if and only if its place is contested in the descriptor.
   */
  lemma UnchangedDescriptorLosesExactly(protocol: Protocol, declared: seq<Declaration>, forced: string, i: nat,
      fragment: SetName, value: Value)
    requires var entries := Plan(declared, Names(forced, protocol));
             LastOf(entries, |entries|, i) && Lands(EMPTY.ledger, entries, i, fragment)
    ensures var entries := Plan(declared, Names(forced, protocol));
            var e := entries[i];
            var place, st := Place(fragment, e.key), Run(EMPTY, Declared(protocol, declared, e.point, value), forced);
            && place in st.ledger.values && st.ledger.values[place] == value
            && (place !in OnMessage(st, LinkStatus(protocol, "", None), forced).ledger.values <==>
                Contested(entries, i, place))
  {
    var entries := Plan(declared, Names(forced, protocol));
    var e := entries[i];
    var place, st := Place(fragment, e.key), Run(EMPTY, Declared(protocol, declared, e.point, value), forced);
    hide Plan, Lands, Inv, OnMessage, Run, Contested;
    WrittenValue(protocol, declared, forced, i, fragment, value);
    AppliedAgain(st, protocol, declared, forced, i, place);
  }

  /** A link status that brings nothing new. */
  lemma AppliedAgain(st: Store, protocol: Protocol, declared: seq<Declaration>, forced: string, i: nat, place: Place)
    requires Inv(st.ledger) && place in st.ledger.values
    requires st.declared == map[protocol := declared] && st.listed == map[]
    requires var entries := Plan(declared, Names(forced, protocol));
             LastOf(entries, |entries|, i) && Owns(st.ledger, entries[i].point, place)
    ensures place !in OnMessage(st, LinkStatus(protocol, "", None), forced).ledger.values <==>
            Contested(Plan(declared, Names(forced, protocol)), i, place)
  {
    hide Plan, Inv, OnMessage, OwnerLeaves;
    var m, entries := LinkStatus(protocol, "", None), Plan(declared, Names(forced, protocol));
    assert entries[i] in entries;
    assert !Unlisted(st, m, entries[i].point) by { assert ListOf(st, m, protocol).None?; }
    assert AppliedBy(st, m, forced) == entries;
    hide AppliedBy, ListOf, Unlisted;
    LinkStatusLosesExactly(st, m, forced, place);
    TakenAfterLast(entries, i, place);
  }

  // ---- two descriptors that lose ----

  function Keyed(point: Point, key: string): Declaration {
    Declaration(point, Options(None, Some(key), ["s"], []))
  }

  lemma KeyedIs(names: Names, key: string)
    requires key == "k" || key == "l"
    ensures DeclaredKey(Keyed("x", key).options) == Some(key) && SetsOf(Keyed("x", key).options, names) == ["s"]
  {
    assert '.' !in key && key[0..] == key;
    assert DottedKey(key) == None;
    assert IsValidSet(key) && IsValidSet("s");
    assert ["s"][1..] == [] && [] + ["s"] == ["s"];
    assert NamesOf(["s"], true, []) == NamesOf([], true, ["s"]);
  }

  lemma PlanOfTwo(names: Names, a: Point, b: Point, key: string, other: string)
    requires a != "" && b != "" && (key == "k" || key == "l") && (other == "k" || other == "l")
    ensures Plan([Keyed(a, key), Keyed(b, other)], names) == [Entry(a, key, ["s"]), Entry(b, other, ["s"])]
  {
    KeyedIs(names, key);
    KeyedIs(names, other);
    hide DeclaredKey, SetsOf;
    var x, y := Keyed(a, key), Keyed(b, other);
    assert x.options == Keyed("x", key).options && y.options == Keyed("x", other).options;
    assert [x, y][1..] == [y] && [y][1..] == [];
    assert Plan([y], names) == [Entry(b, other, ["s"])] + Plan([], names) == [Entry(b, other, ["s"])];
  }

  /** Two points under one key: the one that holds it loses what was written to it. */
  lemma SharedKeyRun(protocol: Protocol, forced: string, value: Value)
    ensures var st := Run(EMPTY, Declared(protocol, [Keyed("x", "k"), Keyed("y", "k")], "x", value), forced);
            && Place("s", "k") in st.ledger.values && st.ledger.values[Place("s", "k")] == value
            && Place("s", "k") !in OnMessage(st, LinkStatus(protocol, "", None), forced).ledger.values
  {
    var declared, names := [Keyed("x", "k"), Keyed("y", "k")], Names(forced, protocol);
    var entries := [Entry("x", "k", ["s"]), Entry("y", "k", ["s"])];
    PlanOfTwo(names, "x", "y", "k", "k");
    hide Plan, Run, OnMessage;
    assert entries[0] == Entry("x", "k", ["s"]) && entries[1] == Entry("y", "k", ["s"]);
    assert LastOf(entries, 2, 0) && Lands(EMPTY.ledger, entries, 0, "s");
    UnchangedDescriptorLosesExactly(protocol, declared, forced, 0, "s", value);
    assert Wants(entries[1], Place("s", "k"));
  }

  /** One point under two keys: it loses what was written to it. */
  lemma RepeatedPointRun(protocol: Protocol, forced: string, value: Value)
    ensures var st := Run(EMPTY, Declared(protocol, [Keyed("x", "k"), Keyed("x", "l")], "x", value), forced);
            && Place("s", "l") in st.ledger.values && st.ledger.values[Place("s", "l")] == value
            && Place("s", "l") !in OnMessage(st, LinkStatus(protocol, "", None), forced).ledger.values
  {
    var declared, names := [Keyed("x", "k"), Keyed("x", "l")], Names(forced, protocol);
    var entries := [Entry("x", "k", ["s"]), Entry("x", "l", ["s"])];
    PlanOfTwo(names, "x", "x", "k", "l");
    hide Plan, Run, OnMessage;
    assert entries[0] == Entry("x", "k", ["s"]) && entries[1] == Entry("x", "l", ["s"]);
    assert LastOf(entries, 2, 1) && Lands(EMPTY.ledger, entries, 1, "s");
    UnchangedDescriptorLosesExactly(protocol, declared, forced, 1, "s", value);
    assert entries[0] in entries && !Wants(entries[0], Place("s", "l"));
    assert OwnerLeaves(entries, "x", Place("s", "l"));
  }
}
