/** The four transit entities (Parada, Linha, Veiculo, PosicaoVeiculo), the token
    table (Chave), the field constraints their declarations impose, and the store
    of all records keyed by primary key together with its cascade-delete rules. */
module Models {
  import opened Basics

  /** A parsed `decimal.Decimal`: a finite value coef * 10^exp kept with its
      exponent (the validator counts decimal places from the exponent, so
      "1.5000000" has seven places), or one of NaN / Infinity, which parse but
      never validate. */
  datatype Dec = Finite(coef: int, exp: int) | NonFinite

  /** Coordinates have at most six decimal places, so they are stored exactly
      as whole micro-degrees. */
  const MicroPerDegree: int := 1_000_000
  const LatBound: nat := 90
  const LonBound: nat := 180

  /** Longest Name (all kinds) and Modelo (vehicles). */
  const NameMax: nat := 100
  const ModelMax: nat := 50

  predicate InRange(micro: int, bound: nat) {
    -(bound as int) * MicroPerDegree <= micro <= bound * MicroPerDegree
  }

  /** Validates a coordinate the way a DecimalField with decimal_places=6 and
      range validators [-bound, bound] does, and yields it in micro-degrees. */
  function ToMicro(d: Dec, bound: nat): (r: Option<int>)
    ensures r.Some? ==> InRange(r.value, bound)
    ensures d.NonFinite? ==> r.None?
    ensures d.Finite? && d.exp < -6 ==> r.None?
    ensures d.Finite? && d.exp == -6 ==> r == (if InRange(d.coef, bound) then Some(d.coef) else None)
  {
    match d
    case NonFinite => None
    case Finite(c, e) =>
      if e < -6 then None
      else
        var m := c * Pow10(e + 6);
        if InRange(m, bound) then Some(m) else None
  }

  /** The Decimal a stored coordinate reads back as (six decimal places). */
  function StoredDecimal(micro: int): (d: Dec)
    ensures forall bound: nat :: InRange(micro, bound) ==> ToMicro(d, bound) == Some(micro)
  {
    Finite(micro, -6)
  }

  /** The micro-degree value depends on the decimal's value, not on how many
      trailing zeros it was written with, as long as it stays within six places. */
  lemma {:induction false} TrailingZeroWithinPlaces(c: int, e: int, bound: nat)
    requires e - 1 >= -6
    ensures ToMicro(Finite(c * 10, e - 1), bound) == ToMicro(Finite(c, e), bound)
  {
    assert Pow10(e + 6) == 10 * Pow10(e + 5);
    assert c * 10 * Pow10(e + 5) == c * (10 * Pow10(e + 5));
  }

  predicate ValidText(s: string, max: nat) {
    0 < |s| <= max
  }

  datatype Stop = Stop(id: int, name: string, lat: int, lon: int)
  datatype Line = Line(id: int, name: string, stops: set<int>)
  datatype Vehicle = Vehicle(id: int, name: string, model: string, line: int)
  /** A Position's primary key is its vehicle's Id. */
  datatype Position = Position(vehicle: int, lat: int, lon: int)

  /** All records, each kind keyed by primary key, plus the Chave table: token
      values with no uniqueness constraint, of which only membership is used. */
  datatype Store = Store(
    stops: map<int, Stop>,
    lines: map<int, Line>,
    vehicles: map<int, Vehicle>,
    positions: map<int, Position>,
    tokens: seq<int>)

  predicate StopFieldsOk(st: Stop) {
    IsInt64(st.id) && ValidText(st.name, NameMax) && InRange(st.lat, LatBound) && InRange(st.lon, LonBound)
  }

  predicate LineFieldsOk(l: Line) {
    IsInt64(l.id) && ValidText(l.name, NameMax)
  }

  predicate VehicleFieldsOk(v: Vehicle) {
    IsInt64(v.id) && ValidText(v.name, NameMax) && ValidText(v.model, ModelMax)
  }

  predicate PositionFieldsOk(p: Position) {
    InRange(p.lat, LatBound) && InRange(p.lon, LonBound)
  }

  /** The store invariant: every key is its record's Id (so one record per Id),
      every field is within its declared constraints, a Line's stops exist,
      every Vehicle's line exists, and every Position belongs to an existing
      Vehicle (so at most one Position per Vehicle). */
  ghost predicate ValidStore(s: Store) {
    && (forall k :: k in s.stops ==> s.stops[k].id == k && StopFieldsOk(s.stops[k]))
    && (forall k :: k in s.lines ==> s.lines[k].id == k && LineFieldsOk(s.lines[k]) && s.lines[k].stops <= s.stops.Keys)
    && (forall k :: k in s.vehicles ==> s.vehicles[k].id == k && VehicleFieldsOk(s.vehicles[k]) && s.vehicles[k].line in s.lines)
    && (forall k :: k in s.positions ==> s.positions[k].vehicle == k && PositionFieldsOk(s.positions[k]) && k in s.vehicles)
  }

  // ---------------------------------------------------------------------------
  // Form validation: what a ModelForm accepts for each kind, given field values
  // already converted to the field's type. Uniqueness of a new key is checked by
  // the callers, which know whether they insert or edit.
  // ---------------------------------------------------------------------------

  function CheckStop(id: int, name: string, lat: Dec, lon: Dec): (r: Option<Stop>)
    ensures r.Some? <==> IsInt64(id) && ValidText(name, NameMax) && ToMicro(lat, LatBound).Some? && ToMicro(lon, LonBound).Some?
    ensures r.Some? ==> StopFieldsOk(r.value) && r.value.id == id && r.value.name == name
    ensures r.Some? ==> Some(r.value.lat) == ToMicro(lat, LatBound) && Some(r.value.lon) == ToMicro(lon, LonBound)
  {
    var la := ToMicro(lat, LatBound);
    var lo := ToMicro(lon, LonBound);
    if IsInt64(id) && ValidText(name, NameMax) && la.Some? && lo.Some? then
      Some(Stop(id, name, la.value, lo.value))
    else
      None
  }

  /** The stop set is a many-to-many field: every chosen Id must be a stored Stop. */
  function CheckLine(s: Store, id: int, name: string, stops: set<int>): (r: Option<Line>)
    ensures r.Some? <==> IsInt64(id) && ValidText(name, NameMax) && stops <= s.stops.Keys
    ensures r.Some? ==> LineFieldsOk(r.value) && r.value.id == id && r.value.name == name && r.value.stops == stops
  {
    if IsInt64(id) && ValidText(name, NameMax) && stops <= s.stops.Keys then Some(Line(id, name, stops)) else None
  }

  /** Every text is `str(x)` for some x among the stops. */
  predicate NamesStops(stops: set<int>, texts: seq<string>) {
    forall k :: 0 <= k < |texts| ==> exists x :: x in stops && IntText(x) == texts[k]
  }

  /** The line form's `Paradas` field (a ModelMultipleChoiceField over the
      stored stops): every submitted value must be the text `str(pk)` of a
      stored stop, so "05" or " 5" names no stop; an empty list chooses none. */
  function ChosenStops(stops: set<int>, texts: seq<string>): (r: Option<set<int>>)
    ensures r.Some? <==> NamesStops(stops, texts)
    ensures r.Some? ==> r.value <= stops && forall x :: x in r.value <==> x in stops && IntText(x) in texts
  {
    if NamesStops(stops, texts) then Some(set x | x in stops && IntText(x) in texts)
    else None
  }

  /** The texts `str(pk)` of a list of ids, as a client posts them. */
  function Texts(ids: seq<int>): (r: seq<string>)
    ensures |r| == |ids| && forall k :: 0 <= k < |ids| ==> r[k] == IntText(ids[k])
  {
    seq(|ids|, k requires 0 <= k < |ids| => IntText(ids[k]))
  }

  /** Posting the texts of stored stops chooses exactly those stops. */
  lemma ChosenStopsOfTexts(stops: set<int>, ids: seq<int>)
    requires forall k :: 0 <= k < |ids| ==> ids[k] in stops
    ensures ChosenStops(stops, Texts(ids)) == Some(ElemsOf(ids))
  {
    var texts := Texts(ids);
    forall k | 0 <= k < |texts|
      ensures exists x :: x in stops && IntText(x) == texts[k]
    {
      assert ids[k] in stops && IntText(ids[k]) == texts[k];
    }
    assert forall k :: 0 <= k < |texts| ==> exists x :: x in stops && IntText(x) == texts[k];
    assert NamesStops(stops, texts);
    var r := ChosenStops(stops, texts).value;
    forall x | x in r
      ensures x in ids
    {
      var k :| 0 <= k < |texts| && texts[k] == IntText(x);
      IntTextInjective(x, ids[k]);
    }
    forall x | x in ids
      ensures x in r
    {
      var k :| 0 <= k < |ids| && ids[k] == x;
      assert texts[k] in texts;
    }
    assert r == ElemsOf(ids);
  }

  /** A zero-padded id is refused although `int()` would read it: with stop 5
      stored, posting "05" chooses nothing. */
  lemma PaddedStopRefused()
    ensures ChosenStops({5}, ["05"]) == None
  {
    var texts: seq<string> := ["05"];
    assert IntText(5) == "5";
    assert !(exists x :: x in {5} && IntText(x) == texts[0]);
  }

  /** LinhaId is a foreign key: it must name a stored Line. */
  function CheckVehicle(s: Store, id: int, name: string, model: string, line: int): (r: Option<Vehicle>)
    ensures r.Some? <==> IsInt64(id) && ValidText(name, NameMax) && ValidText(model, ModelMax) && line in s.lines
    ensures r.Some? ==> VehicleFieldsOk(r.value) && r.value == Vehicle(id, name, model, line)
  {
    if IsInt64(id) && ValidText(name, NameMax) && ValidText(model, ModelMax) && line in s.lines then
      Some(Vehicle(id, name, model, line))
    else
      None
  }

  /** VeiculoId is a one-to-one key: it must name a stored Vehicle. */
  function CheckPosition(s: Store, vehicle: int, lat: Dec, lon: Dec): (r: Option<Position>)
    ensures r.Some? <==> vehicle in s.vehicles && ToMicro(lat, LatBound).Some? && ToMicro(lon, LonBound).Some?
    ensures r.Some? ==> PositionFieldsOk(r.value) && r.value.vehicle == vehicle
    ensures r.Some? ==> Some(r.value.lat) == ToMicro(lat, LatBound) && Some(r.value.lon) == ToMicro(lon, LonBound)
  {
    var la := ToMicro(lat, LatBound);
    var lo := ToMicro(lon, LonBound);
    if vehicle in s.vehicles && la.Some? && lo.Some? then Some(Position(vehicle, la.value, lo.value)) else None
  }

  // ---------------------------------------------------------------------------
  // Saving a validated record (insert or overwrite by key).
  // ---------------------------------------------------------------------------

  function PutStop(s: Store, st: Stop): (r: Store)
    requires StopFieldsOk(st)
    ensures ValidStore(s) ==> ValidStore(r)
    ensures r.stops.Keys == s.stops.Keys + {st.id} && r.stops[st.id] == st
  {
    s.(stops := s.stops[st.id := st])
  }

  function PutLine(s: Store, l: Line): (r: Store)
    requires LineFieldsOk(l) && l.stops <= s.stops.Keys
    ensures ValidStore(s) ==> ValidStore(r)
    ensures r.lines.Keys == s.lines.Keys + {l.id} && r.lines[l.id] == l
  {
    s.(lines := s.lines[l.id := l])
  }

  function PutVehicle(s: Store, v: Vehicle): (r: Store)
    requires VehicleFieldsOk(v) && v.line in s.lines
    ensures ValidStore(s) ==> ValidStore(r)
    ensures r.vehicles.Keys == s.vehicles.Keys + {v.id} && r.vehicles[v.id] == v
  {
    s.(vehicles := s.vehicles[v.id := v])
  }

  function PutPosition(s: Store, p: Position): (r: Store)
    requires PositionFieldsOk(p) && p.vehicle in s.vehicles
    ensures ValidStore(s) ==> ValidStore(r)
    ensures r.positions.Keys == s.positions.Keys + {p.vehicle} && r.positions[p.vehicle] == p
  {
    s.(positions := s.positions[p.vehicle := p])
  }

  /** t is s with the record under `id` of one kind written and nothing else changed. */
  ghost predicate StopWritten(s: Store, t: Store, id: int) {
    id in t.stops && t == s.(stops := s.stops[id := t.stops[id]])
  }

  ghost predicate LineWritten(s: Store, t: Store, id: int) {
    id in t.lines && t == s.(lines := s.lines[id := t.lines[id]])
  }

  ghost predicate VehicleWritten(s: Store, t: Store, id: int) {
    id in t.vehicles && t == s.(vehicles := s.vehicles[id := t.vehicles[id]])
  }

  ghost predicate PositionWritten(s: Store, t: Store, id: int) {
    id in t.positions && t == s.(positions := s.positions[id := t.positions[id]])
  }

  // ---------------------------------------------------------------------------
  // Deletion with the on_delete rules: a Stop is unlinked from every Line (the
  // many-to-many rows go, no Line does); a Line takes its Vehicles with it
  // (CASCADE) and they take their Positions (CASCADE).
  // ---------------------------------------------------------------------------

  function DeleteStop(s: Store, id: int): (r: Store)
    ensures id !in r.stops && forall k :: k in s.stops && k != id ==> k in r.stops && r.stops[k] == s.stops[k]
    ensures r.stops.Keys <= s.stops.Keys
    ensures r.lines.Keys == s.lines.Keys
    ensures forall k :: k in r.lines ==> r.lines[k].id == s.lines[k].id && r.lines[k].name == s.lines[k].name
    ensures forall k :: k in r.lines ==> r.lines[k].stops == s.lines[k].stops - {id}
    ensures r.vehicles == s.vehicles && r.positions == s.positions && r.tokens == s.tokens
    ensures ValidStore(s) ==> ValidStore(r)
  {
    s.(stops := s.stops - {id},
       lines := map k | k in s.lines :: s.lines[k].(stops := s.lines[k].stops - {id}))
  }

  /** The Vehicles whose line is `line`. */
  function VehiclesOf(s: Store, line: int): set<int> {
    set v | v in s.vehicles && s.vehicles[v].line == line
  }

  function DeleteLine(s: Store, id: int): (r: Store)
    ensures r.lines.Keys == s.lines.Keys - {id} && forall k :: k in r.lines ==> r.lines[k] == s.lines[k]
    ensures forall v :: v in r.vehicles <==> v in s.vehicles && s.vehicles[v].line != id
    ensures forall v :: v in r.vehicles ==> r.vehicles[v] == s.vehicles[v]
    ensures forall p :: p in r.positions <==> p in s.positions && !(p in s.vehicles && s.vehicles[p].line == id)
    ensures forall p :: p in r.positions ==> r.positions[p] == s.positions[p]
    ensures r.stops == s.stops && r.tokens == s.tokens
    ensures ValidStore(s) ==> ValidStore(r)
  {
    var gone := VehiclesOf(s, id);
    s.(lines := s.lines - {id}, vehicles := s.vehicles - gone, positions := s.positions - gone)
  }

  function DeleteVehicle(s: Store, id: int): (r: Store)
    ensures r.vehicles.Keys == s.vehicles.Keys - {id} && forall k :: k in r.vehicles ==> r.vehicles[k] == s.vehicles[k]
    ensures r.positions.Keys == s.positions.Keys - {id} && forall k :: k in r.positions ==> r.positions[k] == s.positions[k]
    ensures r.stops == s.stops && r.lines == s.lines && r.tokens == s.tokens
    ensures ValidStore(s) ==> ValidStore(r)
  {
    s.(vehicles := s.vehicles - {id}, positions := s.positions - {id})
  }

  function DeletePosition(s: Store, id: int): (r: Store)
    ensures r.positions.Keys == s.positions.Keys - {id} && forall k :: k in r.positions ==> r.positions[k] == s.positions[k]
    ensures r.stops == s.stops && r.lines == s.lines && r.vehicles == s.vehicles && r.tokens == s.tokens
    ensures ValidStore(s) ==> ValidStore(r)
  {
    s.(positions := s.positions - {id})
  }

  /** After a Line is deleted from a valid store nothing refers to it, and no
      Position is left without its Vehicle. */
  lemma DeleteLineLeavesNoDangling(s: Store, id: int)
    requires ValidStore(s)
    ensures var r := DeleteLine(s, id);
      && (forall v :: v in r.vehicles ==> r.vehicles[v].line != id)
      && (forall p :: p in r.positions ==> p in r.vehicles)
  {
  }
}
