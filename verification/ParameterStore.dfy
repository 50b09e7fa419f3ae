/**
 * The store of ot-parameter-state for one device, as values: who owns which key of which set,
 * what each point claims, the values published, and what every kind of message does to them.
 * ParameterFlow runs the same operations step by step and is proved equal to these functions.
 */
module ParameterStore {
  import opened Common
  import opened Naming

  /** A point value; `Compound` is a JSON array or object, by its canonical text. */
  datatype Value = Number(n: real) | Text(s: string) | Flag(b: bool) | Null | Compound(text: string)

  /** One key of one set: what a point can claim and a value can sit on. */
  datatype Place = Place(fragment: SetName, key: Key)

  /** An entry of a descriptor's parameter_keys; `point` is "" when it names none. */
  datatype Declaration = Declaration(point: Point, options: Options)

  /** Who owns which place, under which key, and the values that sit there. */
  datatype Ledger = Ledger(
    owner: map<Place, Point>,               // ot-parameter-point
    claims: map<Point, seq<Place>>,         // ot-parameter-claims
    claimants: seq<Point>,                  // ot-parameter-claimants
    keys: map<Point, Key>,                  // ot-parameter-key
    values: map<Place, Value>,              // ot-parameter-values
    knownSets: seq<SetName>,                // ot-parameter-sets
    changed: set<SetName>)                  // the sets the current message has changed

  datatype Store = Store(
    ledger: Ledger,
    placement: map<Point, Placement>,       // ot-parameter-set
    deviceType: string,                     // ot-device-type
    declared: map<Protocol, seq<Declaration>>, // ot-parameter-declared
    protocols: seq<Protocol>,               // ot-parameter-protocols
    listed: map<Protocol, seq<Point>>)      // ot-parameter-points (absent: not listed)

  const EMPTY := Store(Ledger(map[], map[], [], map[], map[], [], {}), map[], "", map[], [], map[])

  // ---- reading the store ----

  /** Who holds a place. The store cannot tell an empty id from none. */
  function OwnerOf(l: Ledger, place: Place): Option<Point> {
    if place in l.owner && l.owner[place] != "" then Some(l.owner[place]) else None
  }

  function KeyOf(l: Ledger, point: Point): Key {
    if point in l.keys then l.keys[point] else point
  }

  function ClaimsOf(l: Ledger, point: Point): seq<Place> {
    if point in l.claims then l.claims[point] else []
  }

  function SetsIn(placement: Placement): seq<SetName> {
    if placement.InSets? then placement.sets else []
  }

  /** Somebody else holds the set as a literal where a key is to be claimed, or under a key where a literal is. */
  predicate ShapeTaken(l: Ledger, place: Place, point: Point) {
    if place.key != LITERAL_KEY then
      var literal := OwnerOf(l, Place(place.fragment, LITERAL_KEY));
      literal.Some? && literal.value != point
    else
      exists other | other in l.claimants ::
        other != point && exists held | held in ClaimsOf(l, other) ::
          held.fragment == place.fragment && held.key != LITERAL_KEY
  }

  // ---- the operations ----

  /** Whether `point` may have `place`: it holds it, or nobody does and the set's shape allows it. */
  predicate Claimable(l: Ledger, place: Place, point: Point) {
    var owner := OwnerOf(l, place);
    if owner.Some? then owner.value == point else !ShapeTaken(l, place, point)
  }

  function Claim(l: Ledger, place: Place, point: Point): Ledger {
    if OwnerOf(l, place).Some? || !Claimable(l, place, point) then l
    else l.(owner := l.owner[place := point],
             claims := l.claims[point := ClaimsOf(l, point) + [place]],
             claimants := if point in l.claimants then l.claimants else l.claimants + [point])
  }

  function ClaimAll(l: Ledger, sets: seq<SetName>, key: Key, point: Point): Ledger
    decreases |sets|
  {
    if sets == [] then l
    else ClaimAll(Claim(l, Place(sets[0], key), point), sets[1..], key, point)
  }

  function DropValue(l: Ledger, point: Point, place: Place): Ledger {
    var owner := OwnerOf(l, place);
    if (if owner.Some? then owner.value else place.key) != point then l
    else l.(owner := l.owner - {place},
             claims := if point in l.claims then l.claims[point := Without(l.claims[point], [place])] else l.claims,
             values := l.values - {place},
             changed := if place in l.values then l.changed + {place.fragment} else l.changed)
  }

  function DropAll(l: Ledger, point: Point, places: seq<Place>): Ledger
    decreases |places|
  {
    if places == [] then l else DropAll(DropValue(l, point, places[0]), point, places[1..])
  }

  /** The claims a point placed under `key` in `sets` gives up. */
  function Leaving(held: seq<Place>, sets: seq<SetName>, key: Key): (r: seq<Place>)
    ensures forall x :: x in r <==> x in held && !(x.key == key && x.fragment in sets)
  {
    if held == [] then []
    else (if held[0].key == key && held[0].fragment in sets then [] else [held[0]]) + Leaving(held[1..], sets, key)
  }

  /** Before any claim: places outside the new ones are dropped, then the new key is recorded. */
  function Move(l: Ledger, point: Point, sets: seq<SetName>, key: Key): Ledger {
    var left := DropAll(l, point, Leaving(ClaimsOf(l, point), sets, key));
    left.(keys := left.keys[point := key])
  }

  function Settle(l: Ledger, point: Point, sets: seq<SetName>, key: Key): Ledger {
    ClaimAll(Move(l, point, sets, key), sets, key, point)
  }

  function PlacePoint(st: Store, point: Point, placement: Placement, key: Key): Store {
    st.(placement := st.placement[point := placement], ledger := Settle(st.ledger, point, SetsIn(placement), key))
  }

  /** One value on one set: claimed first, then stored unless it is already the value there. */
  function PutValue(l: Ledger, point: Point, place: Place, value: Value): Ledger {
    var claimed := Claim(l, place, point);
    if !Claimable(l, place, point) || (place in l.values && l.values[place] == value) then claimed
    else claimed.(values := l.values[place := value],
                  changed := l.changed + {place.fragment},
                  knownSets := if place.fragment in l.knownSets then l.knownSets else l.knownSets + [place.fragment])
  }

  function PutAll(l: Ledger, point: Point, key: Key, sets: seq<SetName>, value: Value): Ledger
    decreases |sets|
  {
    if sets == [] then l
    else PutAll(PutValue(l, point, Place(sets[0], key), value), point, key, sets[1..], value)
  }

  /** What a written point resolves to: nowhere when its connector no longer lists it or it opted out. */
  function Resolve(st: Store, point: Point, configured: Option<seq<Point>>, fallback: SetName): Placement {
    if configured.Some? && point !in configured.value then NotAParameter
    else if point !in st.placement then InSets([fallback])
    else st.placement[point]
  }

  function ApplyResults(st: Store, updates: seq<(Point, Value)>, configured: Option<seq<Point>>,
      fallback: SetName): Store
    decreases |updates|
  {
    if updates == [] then st
    else
      var (point, value) := updates[0];
      var sets := SetsIn(Resolve(st, point, configured, fallback));
      var put := PutAll(st.ledger, point, KeyOf(st.ledger, point), sets, value);
      ApplyResults(st.(ledger := put), updates[1..], configured, fallback)
  }

  function Forget(st: Store, point: Point): Store {
    st.(placement := st.placement - {point}, ledger := st.ledger.(keys := st.ledger.keys - {point}))
  }

  // ---- removed points ----

  function ListedBy(st: Store, protocols: seq<Protocol>): (r: Option<seq<Point>>)
    ensures r.Some? <==> forall p | p in protocols :: p in st.listed
    ensures r.Some? ==> forall x :: x in r.value <==> exists p | p in protocols :: x in st.listed[p]
  {
    if protocols == [] then Some([])
    else if protocols[0] !in st.listed then None
    else
      var rest := ListedBy(st, protocols[1..]);
      if rest.None? then None else Some(st.listed[protocols[0]] + rest.value)
  }

  /** The lists of all protocols together, once each has one. */
  function ConfiguredPoints(st: Store): Option<seq<Point>> {
    ListedBy(st, st.protocols)
  }

  function Kept(claimants: seq<Point>, configured: seq<Point>): (r: seq<Point>)
    ensures forall p :: p in r <==> p in claimants && p in configured
  {
    if claimants == [] then []
    else (if claimants[0] in configured then [claimants[0]] else []) + Kept(claimants[1..], configured)
  }

  /** The ledger without the points `gone`: their claims, keys and values are dropped. */
  function Strike(l: Ledger, gone: set<Point>, claimants: seq<Point>): Ledger {
    l.(owner := map pl | pl in l.owner && l.owner[pl] !in gone :: l.owner[pl],
       claims := l.claims - gone,
       claimants := claimants,
       keys := l.keys - gone,
       values := map pl | pl in l.values && !(pl in l.owner && l.owner[pl] in gone) :: l.values[pl],
       changed := l.changed + set pl | pl in l.values && pl in l.owner && l.owner[pl] in gone :: pl.fragment)
  }

  /** The store without its unlisted claimants. */
  function Prune(st: Store, configured: seq<Point>): Store {
    var gone := set p | p in st.ledger.claimants && p !in configured;
    st.(ledger := Strike(st.ledger, gone, Kept(st.ledger.claimants, configured)), placement := st.placement - gone)
  }

  // ---- declarations ----

  datatype Entry = Entry(point: Point, key: Key, sets: seq<SetName>)

  /** The usable declarations, with the sets they belong to under the current naming. */
  function Plan(declared: seq<Declaration>, names: Names): (r: seq<Entry>)
    ensures forall e | e in r :: e.point != "" && forall s | s in e.sets :: Publishable(names.forced, s)
  {
    if declared == [] then []
    else
      var key := DeclaredKey(declared[0].options);
      (if declared[0].point == "" || key.None? then []
       else [Entry(declared[0].point, key.value, SetsOf(declared[0].options, names))])
      + Plan(declared[1..], names)
  }

  function WantAll(wanted: map<Place, Point>, sets: seq<SetName>, key: Key, point: Point): (r: map<Place, Point>)
    ensures forall pl :: pl in r <==> pl in wanted || (pl.key == key && pl.fragment in sets)
    ensures forall pl | pl in r :: r[pl] == if pl.key == key && pl.fragment in sets then point else wanted[pl]
    decreases |sets|
  {
    if sets == [] then wanted
    else WantAll(wanted[Place(sets[0], key) := point], sets[1..], key, point)
  }

  /** The point that is to take each declared place; the last declaration wins. */
  function Wanted(entries: seq<Entry>, wanted: map<Place, Point>): map<Place, Point>
    decreases |entries|
  {
    if entries == [] then wanted
    else Wanted(entries[1..], WantAll(wanted, entries[0].sets, entries[0].key, entries[0].point))
  }

  /** What the map of wanted places assigns to somebody else, of what `point` holds. */
  function Yielded(held: seq<Place>, point: Point, wanted: map<Place, Point>): (r: seq<Place>)
    ensures forall x :: x in r <==> x in held && x in wanted && wanted[x] != point
  {
    if held == [] then []
    else (if held[0] in wanted && wanted[held[0]] != point then [held[0]] else []) + Yielded(held[1..], point, wanted)
  }

  function GiveUp(l: Ledger, entries: seq<Entry>, wanted: map<Place, Point>): Ledger
    decreases |entries|
  {
    if entries == [] then l
    else
      var p := entries[0].point;
      GiveUp(DropAll(l, p, Yielded(ClaimsOf(l, p), p, wanted)), entries[1..], wanted)
  }

  function PlaceAll(st: Store, entries: seq<Entry>): Store
    decreases |entries|
  {
    if entries == [] then st
    else PlaceAll(PlacePoint(st, entries[0].point, InSets(entries[0].sets), entries[0].key), entries[1..])
  }

  function ApplyEntries(st: Store, entries: seq<Entry>): Store {
    PlaceAll(st.(ledger := GiveUp(st.ledger, entries, Wanted(entries, map[]))), entries)
  }

  function NamesFor(st: Store, protocol: Protocol, forced: string): Names {
    Names(forced, if st.deviceType != "" then st.deviceType else protocol)
  }

  function DeclaredBy(st: Store, protocol: Protocol): seq<Declaration> {
    if protocol in st.declared then st.declared[protocol] else []
  }

  function ApplyDeclarations(st: Store, protocol: Protocol, forced: string): Store {
    ApplyEntries(st, Plan(DeclaredBy(st, protocol), NamesFor(st, protocol, forced)))
  }

  predicate Declares(declared: seq<Declaration>, point: Point) {
    exists d | d in declared :: d.point == point
  }

  function Release(st: Store, entry: Declaration): Store {
    if DeclaredKey(entry.options) != Some(KeyOf(st.ledger, entry.point)) then st
    else Forget(st.(ledger := DropAll(st.ledger, entry.point, ClaimsOf(st.ledger, entry.point))), entry.point)
  }

  /** Release every point declared before and not any more. */
  function ReleaseAll(st: Store, before: seq<Declaration>, declared: seq<Declaration>): Store
    decreases |before|
  {
    if before == [] then st
    else if before[0].point == "" || Declares(declared, before[0].point) then ReleaseAll(st, before[1..], declared)
    else ReleaseAll(Release(st, before[0]), before[1..], declared)
  }

  // ---- messages ----

  datatype Result = Result(point: Option<Point>, successful: bool, value: Option<Value>)
  datatype Body =
    | Write(point: Option<Point>, value: Option<Value>)
    | Batch(writes: Option<seq<Option<Point>>>, results: Option<seq<Result>>)
    | OtherVerb
  datatype Progress = Init | Successful | OtherStatus

  /**
   * What the flow receives about the device. `access` and `meta` of a sample are absent when the
   * connector does not echo them; `value` is present only for a good reading. A device type of ""
   * is one the message does not report.
   */
  datatype Message =
    | Sample(protocol: Protocol, deviceType: string, point: Point,
             access: Option<bool>, meta: Option<Meta>, value: Option<Value>)
    | LinkStatus(protocol: Protocol, deviceType: string, points: Option<seq<Point>>)
    | Command(protocol: Protocol, origin: Option<string>, status: Progress, body: Body)
    | Capabilities(protocol: Protocol, declared: seq<Declaration>)

  function NamedPoints(points: seq<Option<Point>>): (r: seq<Point>)
    ensures forall p :: p in r <==> p != "" && Some(p) in points
  {
    if points == [] then []
    else (if points[0].Some? && points[0].value != "" then [points[0].value] else []) + NamedPoints(points[1..])
  }

  function ResultPoints(results: seq<Result>): (r: seq<Option<Point>>)
    ensures |r| == |results| && forall i | 0 <= i < |r| :: r[i] == results[i].point
  {
    if results == [] then [] else [results[0].point] + ResultPoints(results[1..])
  }

  /** Whom a command is about, by its requested writes if it has any and by its results if not. */
  function WrittenPoints(body: Body): seq<Point> {
    match body
    case Write(point, _) => if point.Some? then [point.value] else []
    case Batch(writes, results) =>
      if writes.Some? then NamedPoints(writes.value)
      else if results.Some? then NamedPoints(ResultPoints(results.value))
      else []
    case OtherVerb => []
  }

  /** A field of a fresh object set to a value: in place when it exists, else at the end. */
  function Upsert(updates: seq<(Point, Value)>, point: Point, value: Value): (r: seq<(Point, Value)>)
    ensures forall u | u in r :: u in updates || u == (point, value)
  {
    if updates == [] then [(point, value)]
    else if updates[0].0 == point then [(point, value)] + updates[1..]
    else [updates[0]] + Upsert(updates[1..], point, value)
  }

  function ResultUpdates(results: seq<Result>, updates: seq<(Point, Value)>): seq<(Point, Value)>
    decreases |results|
  {
    if results == [] then updates
    else
      var r := results[0];
      ResultUpdates(results[1..],
        if r.successful && r.point.Some? && r.value.Some? then Upsert(updates, r.point.value, r.value.value)
            else updates)
  }

  function UpdatesOf(body: Body): seq<(Point, Value)> {
    match body
    case Write(point, value) => if point.Some? && value.Some? then [(point.value, value.value)] else []
    case Batch(_, results) => if results.Some? then ResultUpdates(results.value, []) else []
    case OtherVerb => []
  }

  /** A request's set, recorded for the points it writes whose sets are not known. */
  function RecordOrigin(st: Store, points: seq<Point>, origin: SetName): Store
    decreases |points|
  {
    if points == [] then st
    else RecordOrigin(
      if points[0] in st.placement then st else st.(placement := st.placement[points[0] := InSets([origin])]),
      points[1..], origin)
  }

  function SeenProtocol(st: Store, protocol: Protocol): Store {
    if protocol in st.protocols then st else st.(protocols := st.protocols + [protocol])
  }

  function OnSample(st: Store, m: Message, forced: string): Store
    requires m.Sample?
  {
    var seen := SeenProtocol(st, m.protocol);
    var typed := if m.deviceType != "" then seen.(deviceType := m.deviceType) else seen;
    var meta := if m.meta.Some? then m.meta.value else Absent;
    var sets := SetsFromSample(meta, m.access == Some(true), NamesFor(typed, m.protocol, forced));
    var placed := if m.access.Some? || m.meta.Some?
                  then PlacePoint(typed, m.point, sets, KeyFromSample(meta, m.point)) else typed;
    if m.value.None? then placed
    else placed.(ledger := PutAll(placed.ledger, m.point, KeyOf(placed.ledger, m.point), SetsIn(sets), m.value.value))
  }

  /** What a link status reports: the device's type, and the points its connector has configured. */
  function Informed(st: Store, m: Message): Store
    requires m.LinkStatus?
  {
    var seen := SeenProtocol(st, m.protocol);
    seen.(deviceType := m.deviceType,
          listed := if m.points.Some? then seen.listed[m.protocol := m.points.value] else seen.listed - {m.protocol})
  }

  function OnLinkStatus(st: Store, m: Message, forced: string): Store
    requires m.LinkStatus?
  {
    var informed := Informed(st, m);
    var configured := ConfiguredPoints(informed);
    var pruned := if configured.Some? then Prune(informed, configured.value) else informed;
    ApplyDeclarations(pruned, m.protocol, forced)
  }

  function Origin(st: Store, m: Message): Store
    requires m.Command?
  {
    if m.origin.Some? && IsValidSet(m.origin.value) then RecordOrigin(st, WrittenPoints(m.body), m.origin.value) else st
  }

  function OnCommand(st: Store, m: Message, forced: string): Store
    requires m.Command?
  {
    var recorded := Origin(st, m);
    if m.status != Successful then recorded
    else
      var configured := if m.protocol in st.listed then Some(st.listed[m.protocol]) else None;
      ApplyResults(recorded, UpdatesOf(m.body), configured, SetFor(NamesFor(st, m.protocol, forced), ""))
  }

  function OnCapabilities(st: Store, m: Message, forced: string): Store
    requires m.Capabilities?
  {
    var released := ReleaseAll(st, DeclaredBy(st, m.protocol), m.declared);
    ApplyDeclarations(released.(declared := released.declared[m.protocol := m.declared]), m.protocol, forced)
  }

  /** The store at the start of a message: nothing has changed yet. */
  function Fresh(st: Store): Store {
    st.(ledger := st.ledger.(changed := {}))
  }

  /** What one message does to the store; `changed` holds the sets it has to publish. */
  function OnMessage(st: Store, m: Message, forced: string): Store {
    var start := Fresh(st);
    match m
    case Sample(_, _, _, _, _, _) => OnSample(start, m, forced)
    case LinkStatus(_, _, _) => OnLinkStatus(start, m, forced)
    case Command(_, _, _, _) => OnCommand(start, m, forced)
    case Capabilities(_, _) => OnCapabilities(start, m, forced)
  }
}
