/**
 * The retained device twin: after every message each fragment the flow has published carries
 * exactly the stored values, and a link status leaves no value of a removed point in any of them.
 */
module ParameterTwin {
  import opened Common
  import opened Naming
  import opened ParameterStore
  import opened ParameterInvariants

  /** A retained fragment: removed (an empty message), the one value it is, or its keys. */
  datatype Fragment = Cleared | Literal(value: Value) | Keyed(values: map<Key, Value>)

  type Broker = map<SetName, Fragment>

  function ValuesOf(l: Ledger, fragment: SetName): map<Key, Value> {
    map pl | pl in l.values && pl.fragment == fragment :: pl.key := l.values[pl]
  }

  function Render(l: Ledger, fragment: SetName): Fragment {
    var values := ValuesOf(l, fragment);
    if LITERAL_KEY in values then Literal(values[LITERAL_KEY])
    else if values == map[] then Cleared
    else Keyed(values)
  }

  /** What a reader takes out of a fragment. */
  function Carried(f: Fragment): map<Key, Value> {
    match f
    case Cleared => map[]
    case Literal(value) => map[LITERAL_KEY := value]
    case Keyed(values) => values
  }

  function Retained(broker: Broker, fragment: SetName): Fragment {
    if fragment in broker then broker[fragment] else Cleared
  }

  /** Each changed set's rendering replaces what the broker retained for it. */
  function Publish(broker: Broker, l: Ledger): Broker {
    broker + map s | s in l.changed :: Render(l, s)
  }

  /**
   * The fragment carries exactly the stored values of its set: as a literal if one sits on the literal
   * key, and it is removed when there are none.
   */
  ghost predicate CarriesThem(f: Fragment, values: map<Place, Value>, fragment: SetName) {
    && (forall k :: k in Carried(f) <==> Place(fragment, k) in values)
    && (forall k | k in Carried(f) :: Carried(f)[k] == values[Place(fragment, k)])
    && (f.Literal? <==> Place(fragment, LITERAL_KEY) in values)
    && (f.Cleared? <==> forall pl | pl in values :: pl.fragment != fragment)
  }

  /** A literal never hides a key: the fragment carries every stored value of its set. */
  lemma RenderLossless(l: Ledger, fragment: SetName)
    requires Inv(l)
    ensures CarriesThem(Render(l, fragment), l.values, fragment)
  {
    hide Inverse, Listed, OneKey;
    var values := ValuesOf(l, fragment);
    if LITERAL_KEY in values {
      forall k | k in values
        ensures k == LITERAL_KEY
      {
        assert Place(fragment, k) in l.owner && Place(fragment, LITERAL_KEY) in l.owner;
      }
    }
    forall pl | pl in l.values && pl.fragment == fragment
      ensures pl.key in values && pl == Place(fragment, pl.key)
    {
    }
    forall k | k in values
      ensures Place(fragment, k) in l.values
    {
    }
  }

  lemma RenderUnchanged(a: Ledger, b: Ledger, fragment: SetName)
    requires Tracked(a, b) && fragment !in b.changed
    ensures Render(a, fragment) == Render(b, fragment)
  {
    assert ValuesOf(a, fragment) == ValuesOf(b, fragment) by {
      forall k
        ensures k in ValuesOf(a, fragment) <==> k in ValuesOf(b, fragment)
        ensures k in ValuesOf(a, fragment) ==> ValuesOf(a, fragment)[k] == ValuesOf(b, fragment)[k]
      {
        assert k in ValuesOf(a, fragment) <==> Place(fragment, k) in a.values;
        assert k in ValuesOf(b, fragment) <==> Place(fragment, k) in b.values;
      }
    }
  }

  // ---- runs ----

  datatype World = World(store: Store, broker: Broker, announced: set<SetName>)

  function Handle(w: World, m: Message, forced: string): World {
    var after := OnMessage(w.store, m, forced);
    World(after, Publish(w.broker, after.ledger), w.announced + after.ledger.changed)
  }

  function Live(w: World, messages: seq<Message>, forced: string): World
    decreases |messages|
  {
    if messages == [] then w else Live(Handle(w, messages[0], forced), messages[1..], forced)
  }

  /**
   * Every fragment announced since the flow started carries the stored values; any other has no
   * stored value, and is what `before` retained.
   */
  ghost predicate TwinAgrees(w: World, before: Broker) {
    && Inv(w.store.ledger)
    && (forall s | s in w.announced :: Retained(w.broker, s) == Render(w.store.ledger, s))
    && (forall s | s !in w.announced ::
          Render(w.store.ledger, s) == Cleared && Retained(w.broker, s) == Retained(before, s))
  }

  lemma HandleAgrees(w: World, m: Message, forced: string, before: Broker)
    requires TwinAgrees(w, before) && WellFormed(m)
    ensures TwinAgrees(Handle(w, m, forced), before)
  {
    hide Inv, Tracked, OnMessage, Render;
    OnMessageKeeps(w.store, m, forced);
    var after := OnMessage(w.store, m, forced);
    forall s | s !in after.ledger.changed
      ensures Render(after.ledger, s) == Render(w.store.ledger, s)
    {
      RenderUnchanged(Fresh(w.store).ledger, after.ledger, s);
      RenderFresh(w.store, s);
    }
  }

  lemma RenderFresh(st: Store, s: SetName)
    ensures Render(Fresh(st).ledger, s) == Render(st.ledger, s)
  {
  }

  lemma {:induction false} LiveAgrees(w: World, messages: seq<Message>, forced: string, before: Broker)
    requires TwinAgrees(w, before) && forall m | m in messages :: WellFormed(m)
    ensures TwinAgrees(Live(w, messages, forced), before)
    decreases |messages|
  {
    if messages != [] {
      hide TwinAgrees, Handle;
      assert messages[0] in messages;
      HandleAgrees(w, messages[0], forced, before);
      LiveAgrees(Handle(w, messages[0], forced), messages[1..], forced, before);
    }
  }

  /** Whatever the broker retained when the flow started, and whatever messages follow. */
  lemma TwinAlwaysAgrees(messages: seq<Message>, forced: string, before: Broker)
    requires forall m | m in messages :: WellFormed(m)
    ensures TwinAgrees(Live(World(EMPTY, before, {}), messages, forced), before)
  {
    LiveAgrees(World(EMPTY, before, {}), messages, forced, before);
  }

  /** On a device with no fragments retained yet, the twin carries, place by place, exactly the stored values. */
  lemma TwinIsTheRendering(messages: seq<Message>, forced: string, fragment: SetName)
    requires forall m | m in messages :: WellFormed(m)
    ensures var w := Live(World(EMPTY, map[], {}), messages, forced);
            CarriesThem(Retained(w.broker, fragment), w.store.ledger.values, fragment)
  {
    TwinAlwaysAgrees(messages, forced, map[]);
    RenderLossless(Live(World(EMPTY, map[], {}), messages, forced).store.ledger, fragment);
  }

  // ---- removed points ----

  /** Values were only removed from `a` to `b`, and what is left kept its owner. */
  ghost predicate Shrunk(a: Ledger, b: Ledger) {
    forall pl | pl in b.values ::
      && pl in a.values && a.values[pl] == b.values[pl]
      && (pl in a.owner ==> pl in b.owner && b.owner[pl] == a.owner[pl])
  }

  lemma DropShrinks(l: Ledger, point: Point, places: seq<Place>)
    requires Inv(l) && forall pl | pl in places :: pl in ClaimsOf(l, point)
    ensures Shrunk(l, DropAll(l, point, places))
  {
    hide Inv, Tracked;
    DropAllKeeps(l, point, places);
  }

  lemma {:induction false} ClaimAllShrinks(l: Ledger, sets: seq<SetName>, key: Key, point: Point)
    requires Inverse(l) && point != ""
    ensures Shrunk(l, ClaimAll(l, sets, key, point))
    decreases |sets|
  {
    if sets != [] {
      ClaimInverse(l, Place(sets[0], key), point);
      ClaimAllShrinks(Claim(l, Place(sets[0], key), point), sets[1..], key, point);
    }
  }

  lemma SettleShrinks(l: Ledger, point: Point, sets: seq<SetName>, key: Key)
    requires Inv(l) && point != ""
    ensures Shrunk(l, Settle(l, point, sets, key))
  {
    hide Inv, Tracked, DropAll;
    DropShrinks(l, point, Leaving(ClaimsOf(l, point), sets, key));
    MoveKeeps(l, point, sets, key);
    assert Inverse(Move(l, point, sets, key)) by { InvInverse(Move(l, point, sets, key)); }
    ClaimAllShrinks(Move(l, point, sets, key), sets, key, point);
  }

  lemma InvInverse(l: Ledger)
    requires Inv(l)
    ensures Inverse(l)
  {
  }

  lemma {:induction false} GiveUpShrinks(l: Ledger, entries: seq<Entry>, wanted: map<Place, Point>)
    requires Inv(l)
    ensures Shrunk(l, GiveUp(l, entries, wanted))
    decreases |entries|
  {
    if entries != [] {
      hide Inv, DropAll, Dropped, Tracked;
      var p := entries[0].point;
      var gone := Yielded(ClaimsOf(l, p), p, wanted);
      DropShrinks(l, p, gone);
      DropAllKeeps(l, p, gone);
      GiveUpShrinks(DropAll(l, p, gone), entries[1..], wanted);
    }
  }

  lemma {:induction false} PlaceAllShrinks(st: Store, entries: seq<Entry>)
    requires Inv(st.ledger) && forall e | e in entries :: e.point != ""
    ensures Shrunk(st.ledger, PlaceAll(st, entries).ledger)
    decreases |entries|
  {
    if entries != [] {
      hide Inv, Settle, Tracked;
      var e := entries[0];
      assert e in entries;
      SettleShrinks(st.ledger, e.point, e.sets, e.key);
      SettleKeeps(st.ledger, e.point, e.sets, e.key);
      PlaceAllShrinks(PlacePoint(st, e.point, InSets(e.sets), e.key), entries[1..]);
    }
  }

  lemma ApplyEntriesShrinks(st: Store, entries: seq<Entry>)
    requires Inv(st.ledger) && forall e | e in entries :: e.point != ""
    ensures Shrunk(st.ledger, ApplyEntries(st, entries).ledger)
  {
    hide Inv, GiveUp, PlaceAll, Tracked;
    var wanted := Wanted(entries, map[]);
    GiveUpShrinks(st.ledger, entries, wanted);
    GiveUpKeeps(st.ledger, entries, wanted);
    PlaceAllShrinks(st.(ledger := GiveUp(st.ledger, entries, wanted)), entries);
  }

  /** The points a protocol has listed by now: its list in this message, if it is the one that sent it. */
  function ListOf(st: Store, m: Message, protocol: Protocol): Option<seq<Point>>
    requires m.LinkStatus?
  {
    if protocol == m.protocol then m.points
    else if protocol in st.listed then Some(st.listed[protocol]) else None
  }

  /**
   * After a link status, with every protocol's list known, no fragment carries a value of a point
   * that none of them lists.
   */
  lemma NoRemovedPointRemains(st: Store, m: Message, forced: string, place: Place)
    requires Inv(st.ledger) && m.LinkStatus?
    requires forall p | p in st.protocols || p == m.protocol :: ListOf(st, m, p).Some?
    requires place in OnMessage(st, m, forced).ledger.values
    ensures var owner := OnMessage(st, m, forced).ledger.owner;
            place in owner && exists p | p in st.protocols || p == m.protocol ::
              ListOf(st, m, p).Some? && owner[place] in ListOf(st, m, p).value
  {
    var start := Fresh(st);
    hide Inv, ApplyEntries, Prune, Plan, NamesFor, DeclaredBy;
    FreshKeeps(st);
    var informed := Informed(start, m);
    assert forall p :: p in informed.protocols <==> p in st.protocols || p == m.protocol;
    assert forall p | p in informed.protocols :: p in informed.listed && Some(informed.listed[p]) == ListOf(st, m, p);
    var configured := ConfiguredPoints(informed).value;
    var pruned := Prune(informed, configured);
    PrunedInv(informed, configured);
    var entries := Plan(DeclaredBy(pruned, m.protocol), NamesFor(pruned, m.protocol, forced));
    ApplyEntriesShrinks(pruned, entries);
    PruneListed(informed, configured, place);
    ApplyEntriesContext(pruned, entries);
  }

  lemma PrunedInv(st: Store, configured: seq<Point>)
    requires Inv(st.ledger)
    ensures Inv(Prune(st, configured).ledger)
  {
    PruneKeeps(st, configured);
  }

  lemma PruneListed(st: Store, configured: seq<Point>, place: Place)
    requires Inv(st.ledger) && place in Prune(st, configured).ledger.values
    ensures place in Prune(st, configured).ledger.owner && Prune(st, configured).ledger.owner[place] in configured
    ensures Prune(st, configured).protocols == st.protocols && Prune(st, configured).listed == st.listed
  {
  }

  lemma {:induction false} ApplyEntriesContext(st: Store, entries: seq<Entry>)
    ensures var after := ApplyEntries(st, entries);
            after == st.(ledger := after.ledger, placement := after.placement)
  {
    PlaceAllContext(st.(ledger := GiveUp(st.ledger, entries, Wanted(entries, map[]))), entries);
  }

  lemma {:induction false} PlaceAllContext(st: Store, entries: seq<Entry>)
    ensures var after := PlaceAll(st, entries);
            after == st.(ledger := after.ledger, placement := after.placement)
    decreases |entries|
  {
    if entries != [] {
      PlaceAllContext(PlacePoint(st, entries[0].point, InSets(entries[0].sets), entries[0].key), entries[1..]);
    }
  }
}
