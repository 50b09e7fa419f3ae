/**
 * What descriptors and link statuses leave behind, place by place: which points are released or
 * removed, what the others hold, and which values are lost.
 */
module ParameterReleases {
  import opened Common
  import opened Naming
  import opened ParameterStore
  import opened ParameterInvariants
  import opened ParameterTwin
  import opened ParameterDeclarations
  import opened ParameterAgreement
  import opened ParameterReapply

  // ---- releasing ----

  /** The point was declared under the key it still has, and is declared no more. */
  ghost predicate Goes(st: Store, before: seq<Declaration>, declared: seq<Declaration>, point: Point) {
    && point != ""
    && (exists d | d in before :: d.point == point && DeclaredKey(d.options) == Some(KeyOf(st.ledger, point)))
    && !exists d | d in declared :: d.point == point
  }

  /** Of each point, what a release leaves: `gone` says whether it is the point's turn. */
  ghost predicate LeftBy(a: Store, b: Store, gone: bool, point: Point, place: Place) {
    && (Owns(b.ledger, point, place) <==> Owns(a.ledger, point, place) && !gone)
    && KeyOf(b.ledger, point) == (if gone then point else KeyOf(a.ledger, point))
    && (point in b.placement <==> point in a.placement && !gone)
    && (point in b.placement ==> b.placement[point] == a.placement[point])
    && (place in b.ledger.values ==>
          place in a.ledger.values && b.ledger.values[place] == a.ledger.values[place])
    && (Owns(a.ledger, point, place) && place in a.ledger.values ==> (place in b.ledger.values <==> !gone))
  }

  /** Dropping all claims of a point takes exactly what it owns. */
  lemma EmptiedIs(l: Ledger, point: Point, place: Place)
    requires Inv(l)
    ensures var after := DropAll(l, point, ClaimsOf(l, point));
            && after.keys == l.keys
            && (place in after.owner <==> place in l.owner && l.owner[place] != point)
            && (place in after.owner ==> after.owner[place] == l.owner[place])
            && (place in after.values <==> place in l.values && !(place in l.owner && l.owner[place] == point))
            && (place in after.values ==> after.values[place] == l.values[place])
  {
    DropAllKeeps(l, point, ClaimsOf(l, point));
    HeldIs(l, point, place);
    hide Inv, DropAll, Tracked, ClaimsOf;
  }

  lemma ReleaseOne(st: Store, entry: Declaration, point: Point, place: Place)
    requires Inv(st.ledger)
    ensures LeftBy(st, Release(st, entry),
              point == entry.point && DeclaredKey(entry.options) == Some(KeyOf(st.ledger, point)), point, place)
  {
    EmptiedIs(st.ledger, entry.point, place);
    hide Inv, DropAll, DeclaredKey;
  }

  lemma {:induction false} ReleaseAllExactly(st: Store, before: seq<Declaration>, declared: seq<Declaration>,
      point: Point, place: Place)
    requires Inv(st.ledger) && point != ""
    ensures Inv(ReleaseAll(st, before, declared).ledger)
    ensures LeftBy(st, ReleaseAll(st, before, declared), Goes(st, before, declared, point), point, place)
    decreases |before|
  {
    ReleaseAllKeeps(st, before, declared);
    if before != [] {
      var d, rest := before[0], before[1..];
      var next := if d.point == "" || Declares(declared, d.point) then st else Release(st, d);
      ReleaseKeeps(st, d);
      hide Inv, Release, DeclaredKey, Tracked, KeyOf, LeftBy, Goes, Declares;
      ReleaseAllExactly(next, rest, declared, point, place);
      LeftInTurn(st, next, ReleaseAll(st, before, declared), before, declared, point, place);
    }
  }

  /** The head of the declarations, then the rest. */
  lemma LeftInTurn(a: Store, b: Store, c: Store, before: seq<Declaration>, declared: seq<Declaration>, point: Point,
      place: Place)
    requires Inv(a.ledger) && point != "" && before != []
    requires b == if before[0].point == "" || Declares(declared, before[0].point) then a else Release(a, before[0])
    requires LeftBy(b, c, Goes(b, before[1..], declared, point), point, place)
    ensures LeftBy(a, c, Goes(a, before, declared, point), point, place)
  {
    ReleaseOne(a, before[0], point, place);
    hide Inv, Release, DeclaredKey, KeyOf;
    var d, rest := before[0], before[1..];
    assert forall x :: x in before <==> x == d || x in rest;
    assert Declares(declared, point) <==> exists x | x in declared :: x.point == point;
  }

  // ---- a descriptor ----

  /** A point of this descriptor's protocol that it releases. */
  ghost predicate Released(st: Store, m: Message, point: Point)
    requires m.Capabilities?
  {
    Goes(st, if m.protocol in st.declared then st.declared[m.protocol] else [], m.declared, point)
  }

  /** The descriptor's usable entries, under the names of the moment. */
  function Declaring(st: Store, m: Message, forced: string): seq<Entry>
    requires m.Capabilities?
  {
    Plan(m.declared, Names(forced, if st.deviceType != "" then st.deviceType else m.protocol))
  }

  /** The store a descriptor's declarations are applied to. */
  function ReleasedBy(st: Store, m: Message): Store
    requires m.Capabilities?
  {
    var released := ReleaseAll(Fresh(st), DeclaredBy(st, m.protocol), m.declared);
    released.(declared := released.declared[m.protocol := m.declared])
  }

  lemma {:induction false} ReleaseAllContext(st: Store, before: seq<Declaration>, declared: seq<Declaration>)
    ensures var after := ReleaseAll(st, before, declared);
            after == st.(ledger := after.ledger, placement := after.placement)
    decreases |before|
  {
    hide DropAll;
    if before != [] {
      ReleaseAllContext(if before[0].point == "" || Declares(declared, before[0].point) then st
          else Release(st, before[0]), before[1..], declared);
    }
  }

  lemma CapabilitiesIs(st: Store, m: Message, forced: string)
    requires m.Capabilities?
    ensures OnMessage(st, m, forced) == ApplyEntries(ReleasedBy(st, m), Declaring(st, m, forced))
    ensures ReleasedBy(st, m).declared == st.declared[m.protocol := m.declared]
  {
    hide ReleaseAll, ApplyEntries, Plan;
    ReleaseAllContext(Fresh(st), DeclaredBy(st, m.protocol), m.declared);
  }

  /** The declaration names a point and comes to a key, and the entry says so. */
  ghost predicate Plans(d: Declaration, names: Names, e: Entry) {
    d.point != "" && e == Entry(d.point, e.key, SetsOf(d.options, names)) && DeclaredKey(d.options) == Some(e.key)
  }

  lemma PlanOne(d: Declaration, names: Names, rest: seq<Declaration>, e: Entry)
    ensures Plan([d] + rest, names) == Plan([d], names) + Plan(rest, names)
    ensures e in Plan([d], names) <==> Plans(d, names, e)
  {
    hide SetsOf, DeclaredKey;
    assert ([d] + rest)[1..] == rest && [d][1..] == [];
  }

  /** An entry is planned for each declaration that names a point and comes to a key, in the order they are declared. */
  lemma {:induction false} PlanExactly(declared: seq<Declaration>, names: Names, e: Entry)
    ensures e in Plan(declared, names) <==> exists d | d in declared :: Plans(d, names, e)
    ensures declared != [] ==> Plan(declared, names) == Plan(declared[..1], names) + Plan(declared[1..], names)
    decreases |declared|
  {
    if declared != [] {
      var d, rest := declared[0], declared[1..];
      PlanExactly(rest, names, e);
      PlanOne(d, names, rest, e);
      hide Plan, Plans;
      assert [d] + rest == declared && declared[..1] == [d];
    }
  }

  lemma ReleasedIs(st: Store, m: Message, point: Point, place: Place)
    requires Inv(st.ledger) && m.Capabilities? && point != ""
    ensures Inv(ReleasedBy(st, m).ledger)
    ensures LeftBy(st, ReleasedBy(st, m), Released(st, m, point), point, place)
  {
    FreshKeeps(st);
    ReleaseAllExactly(Fresh(st), DeclaredBy(st, m.protocol), m.declared, point, place);
    hide Inv, ReleaseAll, DeclaredKey;
    assert Inv(ReleasedBy(st, m).ledger);
  }

  /** Who holds what once the released points hold nothing. */
  ghost function HeldWithout(st: Store, m: Message): map<Place, Point>
    requires m.Capabilities?
  {
    map pl | pl in st.ledger.owner && !Released(st, m, st.ledger.owner[pl]) :: st.ledger.owner[pl]
  }

  lemma ReleasedOwner(st: Store, m: Message)
    requires Inv(st.ledger) && m.Capabilities?
    ensures ReleasedBy(st, m).ledger.owner == HeldWithout(st, m)
  {
    hide Inv, ReleasedBy, Released, KeyOf;
    var owner, after := st.ledger.owner, ReleasedBy(st, m).ledger.owner;
    ReleasedIs(st, m, "x", Place("", ""));
    forall pl
      ensures pl in after <==> pl in owner && !Released(st, m, owner[pl])
      ensures pl in after && pl in owner ==> after[pl] == owner[pl]
    {
      if pl in owner {
        OwnerNamed(st.ledger, pl);
        ReleasedIs(st, m, owner[pl], pl);
      }
      if pl in after {
        OwnerNamed(ReleasedBy(st, m).ledger, pl);
        ReleasedIs(st, m, after[pl], pl);
      }
    }
  }

  lemma OwnerNamed(l: Ledger, place: Place)
    requires Inv(l) && place in l.owner
    ensures l.owner[place] != ""
  {
  }

  /**
   * A descriptor releases exactly the points it declared under the key they still have and declares no
   * more: they hold nothing and are forgotten. A declared point ends up with what its last entry lands
   * once these places are free, and any other point keeps what it held.
   */
  lemma CapabilitiesHold(st: Store, m: Message, forced: string, point: Point, place: Place)
    requires Inv(st.ledger) && m.Capabilities? && point != ""
    ensures var entries, after := Declaring(st, m, forced), OnMessage(st, m, forced);
            && after.declared == st.declared[m.protocol := m.declared]
            && (!Among(entries, point) ==>
                  && (Owns(after.ledger, point, place) <==> Owns(st.ledger, point, place) && !Released(st, m, point))
                  && (point in after.placement <==> point in st.placement && !Released(st, m, point)))
            && (forall i: nat | LastOf(entries, |entries|, i) && entries[i].point == point ::
                  Owns(after.ledger, point, place) <==>
                  Wants(entries[i], place)
                      && Lands(st.ledger.(owner := HeldWithout(st, m)), entries, i, place.fragment))
  {
    hide Inv, ReleasedBy, Released, ApplyEntries, Plan, KeyOf, OnMessage;
    var entries, start := Declaring(st, m, forced), ReleasedBy(st, m);
    CapabilitiesIs(st, m, forced);
    ReleasedIs(st, m, point, place);
    ReleasedOwner(st, m);
    EntriesNamed(st, m, forced);
    ApplyEntriesContext(start, entries);
    DeclarationLands(start, entries, point, place);
    if !Among(entries, point) {
      PlacementOfOthers(start, entries, point);
    }
    forall i: nat | LastOf(entries, |entries|, i)
      ensures Lands(start.ledger, entries, i, place.fragment)
          <==> Lands(st.ledger.(owner := HeldWithout(st, m)), entries, i, place.fragment)
    {
      SameOwnersLand(start.ledger, st.ledger.(owner := HeldWithout(st, m)), entries, i, place.fragment);
    }
  }

  lemma EntriesNamed(st: Store, m: Message, forced: string)
    requires m.Capabilities?
    ensures Named(Declaring(st, m, forced))
  {
    PlanNamed(m.declared, Names(forced, if st.deviceType != "" then st.deviceType else m.protocol));
  }

  lemma SameOwnersLand(a: Ledger, b: Ledger, entries: seq<Entry>, i: nat, fragment: SetName)
    requires a.owner == b.owner && i < |entries|
    ensures Lands(a, entries, i, fragment) <==> Lands(b, entries, i, fragment)
  {
    hide LandsIn, Wanted;
    assert Remaining(a, entries) == Remaining(b, entries);
  }

  lemma {:induction false} PlacementOfOthers(st: Store, entries: seq<Entry>, point: Point)
    requires !Among(entries, point)
    ensures var after := ApplyEntries(st, entries);
            && (point in after.placement <==> point in st.placement)
            && (point in after.placement ==> after.placement[point] == st.placement[point])
  {
    PlacementOfOthersAll(st.(ledger := GiveUp(st.ledger, entries, Wanted(entries, map[]))), entries, point);
  }

  lemma {:induction false} PlacementOfOthersAll(st: Store, entries: seq<Entry>, point: Point)
    requires !Among(entries, point)
    ensures var after := PlaceAll(st, entries);
            && (point in after.placement <==> point in st.placement)
            && (point in after.placement ==> after.placement[point] == st.placement[point])
    decreases |entries|
  {
    hide Settle;
    if entries != [] {
      var e := entries[0];
      assert e in entries;
      PlacementOfOthersAll(PlacePoint(st, e.point, InSets(e.sets), e.key), entries[1..], point);
    }
  }

  /** A descriptor loses the values of the points it releases, those its declarations lose, and no other. */
  lemma CapabilitiesLoseExactly(st: Store, m: Message, forced: string, place: Place)
    requires Inv(st.ledger) && m.Capabilities? && place in st.ledger.values
    ensures place in st.ledger.owner
    ensures place !in OnMessage(st, m, forced).ledger.values <==>
            Released(st, m, st.ledger.owner[place]) || Loses(st.ledger, Declaring(st, m, forced), place)
  {
    ValuedIsOwned(st.ledger, place);
    OwnerNamed(st.ledger, place);
    hide Inv, ReleasedBy, Released, ApplyEntries, Plan, KeyOf, OnMessage, Loses, Among;
    var point, entries, start := st.ledger.owner[place], Declaring(st, m, forced), ReleasedBy(st, m);
    CapabilitiesIs(st, m, forced);
    ReleasedIs(st, m, point, place);
    EntriesNamed(st, m, forced);
    ApplyLosesExactly(start, entries, place);
    if !Released(st, m, point) {
      SameOwnerSameLoss(st.ledger, start.ledger, entries, place);
    }
  }

  // ---- a link status ----

  /** Who holds what once points that are listed no more hold nothing. */
  ghost function HeldByListed(st: Store, m: Message): map<Place, Point>
    requires m.LinkStatus?
  {
    map pl | pl in st.ledger.owner && !Unlisted(st, m, st.ledger.owner[pl]) :: st.ledger.owner[pl]
  }

  lemma PrunedOwner(st: Store, m: Message)
    requires Inv(st.ledger) && m.LinkStatus?
    ensures Inv(PrunedBy(st, m).ledger) && PrunedBy(st, m).ledger.owner == HeldByListed(st, m)
  {
    hide Inverse, OneKey, OneShape, ValuesOwned, Unlisted, ListedBy, Tracked, Informed;
    FreshKeeps(st);
    var informed := Informed(Fresh(st), m);
    var configured := ConfiguredPoints(informed);
    assert informed.ledger == Fresh(st).ledger by { InformedLedger(Fresh(st), m); }
    forall p
      ensures Unlisted(st, m, p) <==> configured.Some? && p !in configured.value
    {
      UnlistedIs(st, m, p);
    }
    if configured.Some? {
      PruneKeeps(informed, configured.value);
    }
  }

  lemma InformedLedger(st: Store, m: Message)
    requires m.LinkStatus?
    ensures Informed(st, m).ledger == st.ledger && Informed(st, m).placement == st.placement
  {
  }

  lemma PrunedPlacement(st: Store, m: Message, point: Point)
    requires m.LinkStatus?
    ensures point in PrunedBy(st, m).placement <==>
            point in st.placement && !(point in st.ledger.claimants && Unlisted(st, m, point))
  {
    hide Unlisted, ListedBy, Informed, Strike;
    UnlistedIs(st, m, point);
    InformedLedger(Fresh(st), m);
  }

  /**
   * A link status takes everything from the points that are listed no more. A point its protocol declares
   * ends up with what its last entry lands after that, and any other keeps what it held.
   */
  lemma LinkStatusHolds(st: Store, m: Message, forced: string, point: Point, place: Place)
    requires Inv(st.ledger) && m.LinkStatus? && point != ""
    ensures var entries, after := AppliedBy(st, m, forced), OnMessage(st, m, forced);
            && (!Among(entries, point) ==>
                  && (Owns(after.ledger, point, place) <==> Owns(st.ledger, point, place) && !Unlisted(st, m, point))
                  && (point in after.placement <==>
                        point in st.placement && !(point in st.ledger.claimants && Unlisted(st, m, point))))
            && (forall i: nat | LastOf(entries, |entries|, i) && entries[i].point == point ::
                  Owns(after.ledger, point, place) <==>
                  Wants(entries[i], place)
                      && Lands(st.ledger.(owner := HeldByListed(st, m)), entries, i, place.fragment))
  {
    hide Inv, PrunedBy, Unlisted, ApplyEntries, Plan, OnMessage;
    var entries, start := AppliedBy(st, m, forced), PrunedBy(st, m);
    LinkStatusIs(st, m, forced);
    PrunedOwner(st, m);
    PrunedPlacement(st, m, point);
    PlanNamed(if m.protocol in st.declared then st.declared[m.protocol] else [],
      Names(forced, if m.deviceType != "" then m.deviceType else m.protocol));
    DeclarationLands(start, entries, point, place);
    if !Among(entries, point) {
      PlacementOfOthers(start, entries, point);
    }
    forall i: nat | LastOf(entries, |entries|, i)
      ensures Lands(start.ledger, entries, i, place.fragment)
          <==> Lands(st.ledger.(owner := HeldByListed(st, m)), entries, i, place.fragment)
    {
      SameOwnersLand(start.ledger, st.ledger.(owner := HeldByListed(st, m)), entries, i, place.fragment);
    }
  }
}
