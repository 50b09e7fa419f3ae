/**
 * ot-parameter-state as it runs: the mapper store of one device, updated step by step, and the
 * retained twin it publishes. Every method is proved equal to its function in ParameterStore.
 */
module ParameterFlow {
  import opened Common
  import opened Naming
  import opened ParameterStore
  import opened ParameterInvariants
  import opened ParameterTwin
  import opened PruneSteps

  class Flow {
    var owner: map<Place, Point>
    var claims: map<Point, seq<Place>>
    var claimants: seq<Point>
    var keys: map<Point, Key>
    var values: map<Place, Value>
    var knownSets: seq<SetName>
    var changed: set<SetName>
    var placement: map<Point, Placement>
    var deviceType: string
    var declared: map<Protocol, seq<Declaration>>
    var protocols: seq<Protocol>
    var listed: map<Protocol, seq<Point>>
    const forced: string

    /** The broker's retained fragments, and what it retained before the flow started. */
    var broker: Broker
    ghost const before: Broker
    ghost var announced: set<SetName>

    ghost function L(): Ledger
      reads this
    {
      Ledger(owner, claims, claimants, keys, values, knownSets, changed)
    }

    ghost function Snapshot(): Store
      reads this
    {
      Store(L(), placement, deviceType, declared, protocols, listed)
    }

    /** The invariants of the store, and the twin the broker retains. */
    ghost predicate Valid()
      reads this
    {
      TwinAgrees(World(Snapshot(), broker, announced), before)
    }

    constructor (defaultSet: string, retained: Broker)
      ensures Valid() && Snapshot() == EMPTY && broker == retained && before == retained && forced == defaultSet
    {
      owner, claims, claimants, keys, values, knownSets, changed := map[], map[], [], map[], map[], [], {};
      placement, deviceType, declared, protocols, listed := map[], "", map[], [], map[];
      forced := defaultSet;
      broker, before, announced := retained, retained, {};
    }

    method OwnerAt(place: Place) returns (point: Option<Point>)
      ensures point == OwnerOf(L(), place)
    {
      point := if place in owner && owner[place] != "" then Some(owner[place]) else None;
    }

    /** Looks for the other shape among the claims of every other claimant. */
    method ShapeIsTaken(place: Place, point: Point) returns (taken: bool)
      ensures taken == ShapeTaken(L(), place, point)
    {
      if place.key != LITERAL_KEY {
        var literal := OwnerAt(Place(place.fragment, LITERAL_KEY));
        return literal.Some? && literal.value != point;
      }
      for i := 0 to |claimants|
        invariant forall j | 0 <= j < i :: claimants[j] == point ||
                    forall held | held in ClaimsOf(L(), claimants[j]) :: held.fragment != place.fragment
                        || held.key == LITERAL_KEY
      {
        var other := claimants[i];
        if other != point && other in claims {
          var theirs := claims[other];
          for k := 0 to |theirs|
            invariant forall j | 0 <= j < k :: theirs[j].fragment != place.fragment || theirs[j].key == LITERAL_KEY
          {
            if theirs[k].fragment == place.fragment && theirs[k].key != LITERAL_KEY {
              assert theirs[k] in ClaimsOf(L(), other) && other in claimants;
              return true;
            }
          }
        }
      }
      return false;
    }

    method ClaimPlace(place: Place, point: Point) returns (ok: bool)
      modifies this`owner, this`claims, this`claimants
      ensures L() == Claim(old(L()), place, point) && ok == Claimable(old(L()), place, point)
    {
      var held := OwnerAt(place);
      if held.Some? && held.value != point { return false; }
      if held.Some? { return true; }
      var taken := ShapeIsTaken(place, point);
      if taken { return false; }
      owner := owner[place := point];
      var mine := if point in claims then claims[point] else [];
      claims := claims[point := mine + [place]];
      if point !in claimants {
        claimants := claimants + [point];
      }
      return true;
    }

    method Drop(point: Point, place: Place)
      modifies this`owner, this`claims, this`values, this`changed
      ensures L() == DropValue(old(L()), point, place)
    {
      var held := OwnerAt(place);
      if (if held.Some? then held.value else place.key) != point { return; }
      owner := owner - {place};
      if point in claims {
        claims := claims[point := Without(claims[point], [place])];
      }
      if place in values {
        values := values - {place};
        changed := changed + {place.fragment};
      }
    }

    /** The point keeps only the places it is placed in. */
    method LeaveSets(point: Point, current: seq<SetName>, key: Key)
      modifies this`owner, this`claims, this`values, this`changed
      ensures L() == DropAll(old(L()), point, Leaving(ClaimsOf(old(L()), point), current, key))
    {
      hide DropValue, DropAll, Leaving;
      var held := if point in claims then claims[point] else [];
      assert held[0..] == held && held[|held|..] == [];
      for i := 0 to |held|
        invariant DropAll(L(), point, Leaving(held[i..], current, key))
            == DropAll(old(L()), point, Leaving(held, current, key))
      {
        LeaveStep(L(), point, held, i, current, key);
        if !(held[i].key == key && held[i].fragment in current) {
          Drop(point, held[i]);
        }
      }
      DropNone(L(), point, current, key, map[]);
    }

    method ClaimSets(point: Point, current: seq<SetName>, key: Key)
      modifies this`owner, this`claims, this`claimants
      ensures L() == ClaimAll(old(L()), current, key, point)
    {
      hide Claim, Claimable;
      for i := 0 to |current|
        invariant ClaimAll(L(), current[i..], key, point) == ClaimAll(old(L()), current, key, point)
      {
        var _ := ClaimPlace(Place(current[i], key), point);
      }
    }

    method PlaceOne(point: Point, where: Placement, key: Key)
      modifies this`owner, this`claims, this`claimants, this`keys, this`values, this`changed, this`placement
      ensures Snapshot() == PlacePoint(old(Snapshot()), point, where, key)
    {
      hide DropAll, ClaimAll, Leaving;
      placement := placement[point := where];
      var current := if where.InSets? then where.sets else [];
      LeaveSets(point, current, key);
      keys := keys[point := key];
      ClaimSets(point, current, key);
    }

    /** One value on each of a point's sets. */
    method ApplyValue(point: Point, sets: seq<SetName>, value: Value)
      modifies this`owner, this`claims, this`claimants, this`values, this`knownSets, this`changed
      ensures L() == PutAll(old(L()), point, KeyOf(old(L()), point), sets, value)
    {
      var key := if point in keys then keys[point] else point;
      for i := 0 to |sets|
        invariant PutAll(L(), point, key, sets[i..], value) == PutAll(old(L()), point, key, sets, value)
      {
        var place := Place(sets[i], key);
        var ok := ClaimPlace(place, point);
        if ok && !(place in values && values[place] == value) {
          values := values[place := value];
          changed := changed + {place.fragment};
          if place.fragment !in knownSets {
            knownSets := knownSets + [place.fragment];
          }
        }
      }
    }

    method ApplyUpdates(updates: seq<(Point, Value)>, configured: Option<seq<Point>>, fallback: SetName)
      modifies this`owner, this`claims, this`claimants, this`values, this`knownSets, this`changed
      ensures Snapshot() == ApplyResults(old(Snapshot()), updates, configured, fallback)
    {
      for i := 0 to |updates|
        invariant ApplyResults(Snapshot(), updates[i..], configured, fallback)
            == ApplyResults(old(Snapshot()), updates, configured, fallback)
      {
        var (point, value) := updates[i];
        var resolved := if configured.Some? && point !in configured.value then NotAParameter
                        else if point !in placement then InSets([fallback]) else placement[point];
        if resolved.InSets? {
          ApplyValue(point, resolved.sets, value);
        }
      }
    }

    method WantedPlaces(entries: seq<Entry>) returns (wanted: map<Place, Point>)
      ensures wanted == Wanted(entries, map[])
    {
      wanted := map[];
      for i := 0 to |entries|
        invariant Wanted(entries[i..], wanted) == Wanted(entries, map[])
      {
        wanted := WantAll(wanted, entries[i].sets, entries[i].key, entries[i].point);
      }
    }

    /** The first pass for one point: whatever is wanted for somebody else leaves it. */
    method YieldClaims(point: Point, wanted: map<Place, Point>)
      modifies this`owner, this`claims, this`values, this`changed
      ensures L() == DropAll(old(L()), point, Yielded(ClaimsOf(old(L()), point), point, wanted))
    {
      hide DropValue, DropAll, Yielded;
      var held := if point in claims then claims[point] else [];
      assert held[0..] == held && held[|held|..] == [];
      for i := 0 to |held|
        invariant DropAll(L(), point, Yielded(held[i..], point, wanted))
            == DropAll(old(L()), point, Yielded(held, point, wanted))
      {
        YieldStep(L(), point, held, i, wanted);
        if held[i] in wanted && wanted[held[i]] != point {
          Drop(point, held[i]);
        }
      }
      DropNone(L(), point, [], "", wanted);
    }

    method GiveUpClaims(entries: seq<Entry>, wanted: map<Place, Point>)
      modifies this`owner, this`claims, this`values, this`changed
      ensures L() == GiveUp(old(L()), entries, wanted)
    {
      hide DropAll, Yielded;
      for i := 0 to |entries|
        invariant GiveUp(L(), entries[i..], wanted) == GiveUp(old(L()), entries, wanted)
      {
        YieldClaims(entries[i].point, wanted);
      }
    }

    /** Two passes: every point gives up what another is to take, then all are placed. */
    method ApplyDeclared(protocol: Protocol)
      modifies this`owner, this`claims, this`claimants, this`keys, this`values, this`changed, this`placement
      ensures Snapshot() == ApplyDeclarations(old(Snapshot()), protocol, forced)
    {
      hide GiveUp, Wanted, Plan, PlacePoint;
      var names := Names(forced, if deviceType != "" then deviceType else protocol);
      var entries := Plan(if protocol in declared then declared[protocol] else [], names);
      var wanted := WantedPlaces(entries);
      GiveUpClaims(entries, wanted);
      ghost var freed := Snapshot();
      for i := 0 to |entries|
        invariant PlaceAll(Snapshot(), entries[i..]) == PlaceAll(freed, entries)
      {
        PlaceOne(entries[i].point, InSets(entries[i].sets), entries[i].key);
      }
    }

    method DropHeld(point: Point)
      modifies this`owner, this`claims, this`values, this`changed
      ensures L() == DropAll(old(L()), point, ClaimsOf(old(L()), point))
    {
      var held := if point in claims then claims[point] else [];
      for i := 0 to |held|
        invariant DropAll(L(), point, held[i..]) == DropAll(old(L()), point, held)
      {
        Drop(point, held[i]);
      }
    }

    method ForgetPoint(point: Point)
      modifies this`placement, this`keys
      ensures Snapshot() == Forget(old(Snapshot()), point)
    {
      placement := placement - {point};
      keys := keys - {point};
    }

    method ReleaseDeclared(entry: Declaration)
      modifies this`owner, this`claims, this`values, this`changed, this`placement, this`keys
      ensures Snapshot() == Release(old(Snapshot()), entry)
    {
      var key := if entry.point in keys then keys[entry.point] else entry.point;
      if DeclaredKey(entry.options) != Some(key) { return; }
      DropHeld(entry.point);
      ForgetPoint(entry.point);
    }

    /**
     * Two loops: first the values of unlisted points, whose owners are forgotten at once, then
     * every unlisted claimant with all it claims. Between them a forgotten point may still hold
     * claims; together they strike out exactly the unlisted claimants.
     */
    method PruneRemoved(configured: seq<Point>)
      requires Inv(L())
      modifies this`owner, this`claims, this`claimants, this`keys, this`values, this`changed, this`placement
      ensures Snapshot() == Prune(old(Snapshot()), configured)
    {
      hide Inv, Pruning, DropValue, DropAll, Prune, Kept, GoneOf;
      ghost var start := Snapshot();
      PruningStart(start, configured);
      ValuesAreKnown(start.ledger);
      ghost var dropped: set<Place>, forgotten: set<Point> := {}, {};
      var todo := set pl | pl in values && pl.fragment in knownSets;
      while todo != {}
        invariant forall pl | pl in todo :: pl in start.ledger.values && pl !in dropped
        invariant Pruning(start, Snapshot(), configured, dropped, forgotten, {})
        decreases todo
      {
        var place :| place in todo;
        todo := todo - {place};
        PruningOwner(start, Snapshot(), configured, dropped, forgotten, {}, place);
        var held := OwnerAt(place);
        var point := if held.Some? then held.value else place.key;
        if point !in configured {
          ghost var earlier := Snapshot();
          Drop(point, place);
          ForgetPoint(point);
          PruneValueStep(start, earlier, configured, dropped, forgotten, point, place);
          dropped, forgotten := dropped + {place}, forgotten + {point};
        }
      }
      dropped, forgotten := PruneClaimants(start, configured, dropped, forgotten);
    }

    /** The second loop: every unlisted claimant loses all it claims, and is no claimant any more. */
    method PruneClaimants(ghost start: Store, configured: seq<Point>, ghost dropped: set<Place>,
        ghost forgotten: set<Point>)
      returns (ghost droppedNow: set<Place>, ghost forgottenNow: set<Point>)
      requires Inv(start.ledger) && Pruning(start, Snapshot(), configured, dropped, forgotten, {})
      modifies this`owner, this`claims, this`claimants, this`keys, this`values, this`changed, this`placement
      ensures Snapshot() == Prune(start, configured)
    {
      hide Inv, Pruning, DropValue, DropAll, Prune, Kept;
      droppedNow, forgottenNow := dropped, forgotten;
      PruningClaimants(start, Snapshot(), configured, dropped, forgotten, {});
      var kept := [];
      ghost var gone: set<Point> := {};
      ClaimantsBegin(claimants, configured);
      for i := 0 to |claimants|
        invariant claimants == start.ledger.claimants
        invariant kept + Kept(claimants[i..], configured) == Kept(claimants, configured)
        invariant gone == GoneOf(claimants[..i], configured)
        invariant Pruning(start, Snapshot(), configured, droppedNow, forgottenNow, gone)
      {
        var point := claimants[i];
        KeptStep(claimants, i, configured, kept);
        GoneStep(claimants, i, configured);
        if point in configured {
          kept := kept + [point];
        } else {
          ghost var earlier := Snapshot();
          DropHeld(point);
          claims := claims - {point};
          ForgetPoint(point);
          droppedNow, forgottenNow :=
              PruneClaimantStep(start, earlier, configured, droppedNow, forgottenNow, gone, point);
          gone := gone + {point};
        }
      }
      ClaimantsEnd(claimants, configured, kept);
      ghost var last := Snapshot();
      claimants := kept;
      PruneDone(start, last, configured, droppedNow, forgottenNow, gone);
    }

    method ConfiguredNow() returns (configured: Option<seq<Point>>)
      ensures configured == ConfiguredPoints(Snapshot())
    {
      var all := [];
      hide ListedBy;
      assert protocols[0..] == protocols && protocols[|protocols|..] == [];
      ListedNone(Snapshot());
      ghost var known := ListedBy(Snapshot(), protocols);
      assert known.Some? ==> [] + known.value == known.value;
      for i := 0 to |protocols|
        invariant var rest := ListedBy(Snapshot(), protocols[i..]);
                  ConfiguredPoints(Snapshot()) == if rest.Some? then Some(all + rest.value) else None
      {
        ListedStep(Snapshot(), protocols, i, all);
        if protocols[i] !in listed { return None; }
        all := all + listed[protocols[i]];
      }
      assert all + [] == all;
      return Some(all);
    }

    method SeeProtocol(protocol: Protocol)
      modifies this`protocols
      ensures Snapshot() == SeenProtocol(old(Snapshot()), protocol)
    {
      if protocol !in protocols {
        protocols := protocols + [protocol];
      }
    }

    method HandleSample(m: Message)
      requires m.Sample?
      modifies this`owner, this`claims, this`claimants, this`keys, this`values, this`knownSets, this`changed,
               this`placement, this`deviceType, this`protocols
      ensures Snapshot() == OnSample(old(Snapshot()), m, forced)
    {
      hide Settle, PutAll, SetsFromSample, KeyFromSample;
      SeeProtocol(m.protocol);
      if m.deviceType != "" {
        deviceType := m.deviceType;
      }
      var meta := if m.meta.Some? then m.meta.value else Absent;
      var sets := SetsFromSample(meta, m.access == Some(true),
          Names(forced, if deviceType != "" then deviceType else m.protocol));
      if m.access.Some? || m.meta.Some? {
        PlaceOne(m.point, sets, KeyFromSample(meta, m.point));
      }
      if m.value.Some? {
        ApplyValue(m.point, if sets.InSets? then sets.sets else [], m.value.value);
      }
    }

    method HandleLinkStatus(m: Message)
      requires m.LinkStatus? && Inv(L())
      modifies this`owner, this`claims, this`claimants, this`keys, this`values, this`changed,
               this`placement, this`deviceType, this`protocols, this`listed
      ensures Snapshot() == OnLinkStatus(old(Snapshot()), m, forced)
    {
      hide Inv, Prune, ApplyDeclarations;
      SeeProtocol(m.protocol);
      deviceType := m.deviceType;
      listed := if m.points.Some? then listed[m.protocol := m.points.value] else listed - {m.protocol};
      var configured := ConfiguredNow();
      if configured.Some? {
        PruneRemoved(configured.value);
      }
      ApplyDeclared(m.protocol);
    }

    method RecordRequest(points: seq<Point>, origin: SetName)
      modifies this`placement
      ensures Snapshot() == RecordOrigin(old(Snapshot()), points, origin)
    {
      for i := 0 to |points|
        invariant RecordOrigin(Snapshot(), points[i..], origin) == RecordOrigin(old(Snapshot()), points, origin)
      {
        if points[i] !in placement {
          placement := placement[points[i] := InSets([origin])];
        }
      }
    }

    method HandleCommand(m: Message)
      requires m.Command?
      modifies this`owner, this`claims, this`claimants, this`values, this`knownSets, this`changed, this`placement
      ensures Snapshot() == OnCommand(old(Snapshot()), m, forced)
    {
      hide RecordOrigin, ApplyResults, UpdatesOf, WrittenPoints;
      if m.origin.Some? && IsValidSet(m.origin.value) {
        RecordRequest(WrittenPoints(m.body), m.origin.value);
      }
      if m.status == Successful {
        var configured := if m.protocol in listed then Some(listed[m.protocol]) else None;
        var fallback := SetFor(Names(forced, if deviceType != "" then deviceType else m.protocol), "");
        ApplyUpdates(UpdatesOf(m.body), configured, fallback);
      }
    }

    method HandleCapabilities(m: Message)
      requires m.Capabilities?
      modifies this`owner, this`claims, this`claimants, this`keys, this`values, this`changed, this`placement,
          this`declared
      ensures Snapshot() == OnCapabilities(old(Snapshot()), m, forced)
    {
      hide Release, ApplyDeclarations;
      var listedBefore := if m.protocol in declared then declared[m.protocol] else [];
      for i := 0 to |listedBefore|
        invariant ReleaseAll(Snapshot(), listedBefore[i..], m.declared)
            == ReleaseAll(old(Snapshot()), listedBefore, m.declared)
      {
        if listedBefore[i].point != "" && !Declares(m.declared, listedBefore[i].point) {
          ReleaseDeclared(listedBefore[i]);
        }
      }
      declared := declared[m.protocol := m.declared];
      ApplyDeclared(m.protocol);
    }

    /** One retained message per changed set: its value, its keys, or empty to clear it. */
    method PublishTwin()
      modifies this`broker, this`announced
      ensures broker == Publish(old(broker), L()) && announced == old(announced) + changed
    {
      hide Render, Rendered;
      var todo := changed;
      RenderedNone(broker, L(), changed);
      while todo != {}
        invariant todo <= changed && announced == old(announced)
        invariant broker == Rendered(old(broker), L(), changed - todo)
        decreases todo
      {
        var name :| name in todo;
        RenderedOne(old(broker), L(), changed, todo, name);
        broker := broker[name := RenderNow(name)];
        todo := todo - {name};
      }
      announced := announced + changed;
      RenderedAll(old(broker), L());
    }

    function RenderNow(name: SetName): (f: Fragment)
      reads this
      ensures f == Render(L(), name)
    {
      var carried := map pl | pl in values && pl.fragment == name :: pl.key := values[pl];
      assert carried == ValuesOf(L(), name);
      if LITERAL_KEY in carried then Literal(carried[LITERAL_KEY])
      else if carried == map[] then Cleared
      else Keyed(carried)
    }

    /** What a message does to the store, before anything is published. */
    method Dispatch(m: Message)
      requires Inv(L())
      modifies this`owner, this`claims, this`claimants, this`keys, this`values, this`knownSets, this`changed,
               this`placement, this`deviceType, this`protocols, this`listed, this`declared
      ensures Snapshot() == OnMessage(old(Snapshot()), m, forced)
    {
      hide Inv, OnSample, OnLinkStatus, OnCommand, OnCapabilities;
      FreshKeeps(Snapshot());
      changed := {};
      match m {
        case Sample(_, _, _, _, _, _) => HandleSample(m);
        case LinkStatus(_, _, _) => HandleLinkStatus(m);
        case Command(_, _, _, _) => HandleCommand(m);
        case Capabilities(_, _) => HandleCapabilities(m);
      }
    }

    /** Handle one message and publish every set it changed. */
    method Handle(m: Message)
      requires Valid() && WellFormed(m)
      modifies this
      ensures Valid()
      ensures Snapshot() == OnMessage(old(Snapshot()), m, forced) && broker == Publish(old(broker), L())
    {
      hide Inv, OnMessage, Publish, ParameterTwin.Handle;
      ghost var world := World(Snapshot(), broker, announced);
      Dispatch(m);
      PublishTwin();
      HandledIs(world, m, forced);
      HandleAgrees(world, m, forced, before);
    }
  }

  /** The broker with some sets published. */
  ghost function Rendered(broker: Broker, l: Ledger, sets: set<SetName>): Broker {
    broker + map s | s in sets :: Render(l, s)
  }

  lemma RenderedNone(broker: Broker, l: Ledger, changed: set<SetName>)
    ensures Rendered(broker, l, changed - changed) == broker
  {
  }

  lemma RenderedOne(broker: Broker, l: Ledger, changed: set<SetName>, todo: set<SetName>, name: SetName)
    requires name in todo && todo <= changed
    ensures Rendered(broker, l, changed - (todo - {name}))
        == Rendered(broker, l, changed - todo)[name := Render(l, name)]
  {
    hide Render;
  }

  lemma RenderedAll(broker: Broker, l: Ledger)
    ensures Rendered(broker, l, l.changed - {}) == Publish(broker, l)
  {
    hide Render;
    assert l.changed - {} == l.changed;
  }

  lemma HandledIs(w: World, m: Message, forced: string)
    ensures var after := OnMessage(w.store, m, forced);
            ParameterTwin.Handle(w, m, forced)
                == World(after, Publish(w.broker, after.ledger), w.announced + after.ledger.changed)
  {
  }
}
