/** The single-record views: create (`new_*`), edit (`update_*`), delete
    (`delete_*`), and unlinking stops from a line (`remove_stop_from_line`).

    Create and edit pass the token gate before anything else; delete looks the
    record up first and only then reads the token. An edit reads every field
    it is not given from the stored record, refuses a posted Id that differs
    from the path id, and hands the result to the model form. */
module Crud {
  import opened Basics
  import opened Models
  import opened Requests

  /** The token gate applied to the request's `auth` field. */
  function Gate(p: Parsers, s: Store, req: Request): Access {
    Authorize(s.tokens, Field(req, "auth"), p)
  }

  /** A required integer form field: absent or unconvertible gives None. */
  function FormInt(p: Parsers, req: Request, key: string): (r: Option<int>)
    ensures r.Some? ==> key in req.fields && p.parseFormInt(req.fields[key]) == r
    ensures key in req.fields ==> r == p.parseFormInt(req.fields[key])
  {
    if key in req.fields then p.parseFormInt(req.fields[key]) else None
  }

  /** A required key field (a foreign key or a one-to-one key), looked up with
      `int()` by the form. */
  function FormKey(p: Parsers, req: Request, key: string): (r: Option<int>)
    ensures r.Some? ==> key in req.fields && p.parseInt(req.fields[key]) == r
    ensures key in req.fields ==> r == p.parseInt(req.fields[key])
  {
    if key in req.fields then p.parseInt(req.fields[key]) else None
  }

  /** A required decimal form field. */
  function FormDec(p: Parsers, req: Request, key: string): (r: Option<Dec>)
    ensures r.Some? ==> key in req.fields && p.parseDecimal(req.fields[key]) == r
    ensures key in req.fields ==> r == p.parseDecimal(req.fields[key])
  {
    if key in req.fields then p.parseDecimal(req.fields[key]) else None
  }

  /** `Decimal(request.POST.get(key, stored))`, or the form's conversion of
      the same: the stored coordinate reads back as a six-place decimal. */
  function DecimalOr(p: Parsers, req: Request, key: string, stored: int): (r: Option<Dec>)
    ensures key in req.fields ==> r == p.parseDecimal(req.fields[key])
    ensures key !in req.fields ==> r == Some(StoredDecimal(stored))
  {
    if key in req.fields then p.parseDecimal(req.fields[key]) else Some(StoredDecimal(stored))
  }

  /** `int(request.POST.get(key, stored))`. */
  function IntOr(p: Parsers, req: Request, key: string, stored: int): (r: Option<int>)
    ensures key in req.fields ==> r == p.parseInt(req.fields[key])
    ensures key !in req.fields ==> r == Some(stored)
  {
    if key in req.fields then p.parseInt(req.fields[key]) else Some(stored)
  }

  // ---------------------------------------------------------------------------
  // Create
  // ---------------------------------------------------------------------------

  /** `new_stop`: every field is required and a taken Id is refused. */
  function NewStopView(p: Parsers, s: Store, req: Request): (o: Outcome)
    ensures Gate(p, s, req) != Granted ==> o == Outcome(s, Refusal(Gate(p, s, req)))
    ensures o.reply == Done || o.store == s
    ensures Gate(p, s, req) == Granted ==> o.reply in {Done, FormRejected}
    ensures o.reply == Done <==> (Gate(p, s, req) == Granted &&
      FormInt(p, req, "Id").Some? && "Name" in req.fields &&
      FormDec(p, req, "Latitude").Some? && FormDec(p, req, "Longitude").Some? &&
      FormInt(p, req, "Id").value !in s.stops &&
      CheckStop(FormInt(p, req, "Id").value, req.fields["Name"], FormDec(p, req, "Latitude").value, FormDec(p, req, "Longitude").value).Some?)
    ensures o.reply == Done ==> var id := FormInt(p, req, "Id").value;
      id !in s.stops && StopWritten(s, o.store, id) &&
      Some(o.store.stops[id]) == CheckStop(id, req.fields["Name"], FormDec(p, req, "Latitude").value, FormDec(p, req, "Longitude").value)
    ensures ValidStore(s) ==> ValidStore(o.store)
  {
    var access := Gate(p, s, req);
    if access != Granted then Outcome(s, Refusal(access))
    else match (FormInt(p, req, "Id"), Field(req, "Name"), FormDec(p, req, "Latitude"), FormDec(p, req, "Longitude"))
      case (Some(id), Some(name), Some(lat), Some(lon)) =>
        if id in s.stops then Outcome(s, FormRejected)
        else (match CheckStop(id, name, lat, lon)
          case None => Outcome(s, FormRejected)
          case Some(st) => Outcome(PutStop(s, st), Done))
      case _ => Outcome(s, FormRejected)
  }

  /** `new_line`: each posted `Paradas` value must be the text of a stored
      stop's id; an empty list is allowed. */
  function NewLineView(p: Parsers, s: Store, req: Request): (o: Outcome)
    ensures Gate(p, s, req) != Granted ==> o == Outcome(s, Refusal(Gate(p, s, req)))
    ensures o.reply == Done || o.store == s
    ensures Gate(p, s, req) == Granted ==> o.reply in {Done, FormRejected}
    ensures o.reply == Done <==> (Gate(p, s, req) == Granted &&
      FormInt(p, req, "Id").Some? && "Name" in req.fields &&
      NamesStops(s.stops.Keys, req.stopList) &&
      FormInt(p, req, "Id").value !in s.lines && IsInt64(FormInt(p, req, "Id").value) && ValidText(req.fields["Name"], NameMax))
    ensures o.reply == Done ==> var id := FormInt(p, req, "Id").value;
      id !in s.lines && LineWritten(s, o.store, id) &&
      o.store.lines[id] == Line(id, req.fields["Name"], set x | x in s.stops && IntText(x) in req.stopList)
    ensures ValidStore(s) ==> ValidStore(o.store)
  {
    var access := Gate(p, s, req);
    if access != Granted then Outcome(s, Refusal(access))
    else match (FormInt(p, req, "Id"), Field(req, "Name"), ChosenStops(s.stops.Keys, req.stopList))
      case (Some(id), Some(name), Some(ids)) =>
        if id in s.lines then Outcome(s, FormRejected)
        else (match CheckLine(s, id, name, ids)
          case None => Outcome(s, FormRejected)
          case Some(l) => Outcome(PutLine(s, l), Done))
      case _ => Outcome(s, FormRejected)
  }

  /** `new_vehicle`: LinhaId must name a stored line. */
  function NewVehicleView(p: Parsers, s: Store, req: Request): (o: Outcome)
    ensures Gate(p, s, req) != Granted ==> o == Outcome(s, Refusal(Gate(p, s, req)))
    ensures o.reply == Done || o.store == s
    ensures Gate(p, s, req) == Granted ==> o.reply in {Done, FormRejected}
    ensures o.reply == Done <==> (Gate(p, s, req) == Granted &&
      FormInt(p, req, "Id").Some? && "Name" in req.fields && "Modelo" in req.fields && FormKey(p, req, "LinhaId").Some? &&
      FormInt(p, req, "Id").value !in s.vehicles &&
      CheckVehicle(s, FormInt(p, req, "Id").value, req.fields["Name"], req.fields["Modelo"], FormKey(p, req, "LinhaId").value).Some?)
    ensures o.reply == Done ==> var id := FormInt(p, req, "Id").value;
      id !in s.vehicles && VehicleWritten(s, o.store, id) &&
      o.store.vehicles[id] == Vehicle(id, req.fields["Name"], req.fields["Modelo"], FormKey(p, req, "LinhaId").value)
    ensures ValidStore(s) ==> ValidStore(o.store)
  {
    var access := Gate(p, s, req);
    if access != Granted then Outcome(s, Refusal(access))
    else match (FormInt(p, req, "Id"), Field(req, "Name"), Field(req, "Modelo"), FormKey(p, req, "LinhaId"))
      case (Some(id), Some(name), Some(model), Some(line)) =>
        if id in s.vehicles then Outcome(s, FormRejected)
        else (match CheckVehicle(s, id, name, model, line)
          case None => Outcome(s, FormRejected)
          case Some(v) => Outcome(PutVehicle(s, v), Done))
      case _ => Outcome(s, FormRejected)
  }

  /** `new_position`: VeiculoId must name a stored vehicle that has no
      position yet. */
  function NewPositionView(p: Parsers, s: Store, req: Request): (o: Outcome)
    ensures Gate(p, s, req) != Granted ==> o == Outcome(s, Refusal(Gate(p, s, req)))
    ensures o.reply == Done || o.store == s
    ensures Gate(p, s, req) == Granted ==> o.reply in {Done, FormRejected}
    ensures o.reply == Done <==> (Gate(p, s, req) == Granted &&
      FormKey(p, req, "VeiculoId").Some? && FormDec(p, req, "Latitude").Some? && FormDec(p, req, "Longitude").Some? &&
      FormKey(p, req, "VeiculoId").value !in s.positions &&
      CheckPosition(s, FormKey(p, req, "VeiculoId").value, FormDec(p, req, "Latitude").value, FormDec(p, req, "Longitude").value).Some?)
    ensures o.reply == Done ==> var id := FormKey(p, req, "VeiculoId").value;
      id !in s.positions && id in s.vehicles && PositionWritten(s, o.store, id) &&
      Some(o.store.positions[id]) == CheckPosition(s, id, FormDec(p, req, "Latitude").value, FormDec(p, req, "Longitude").value)
    ensures ValidStore(s) ==> ValidStore(o.store)
  {
    var access := Gate(p, s, req);
    if access != Granted then Outcome(s, Refusal(access))
    else match (FormKey(p, req, "VeiculoId"), FormDec(p, req, "Latitude"), FormDec(p, req, "Longitude"))
      case (Some(id), Some(lat), Some(lon)) =>
        if id in s.positions then Outcome(s, FormRejected)
        else (match CheckPosition(s, id, lat, lon)
          case None => Outcome(s, FormRejected)
          case Some(q) => Outcome(PutPosition(s, q), Done))
      case _ => Outcome(s, FormRejected)
  }

  // ---------------------------------------------------------------------------
  // Edit
  // ---------------------------------------------------------------------------

  /** `update_stop`: the coordinates and the Id are converted by the view
      itself (so a bad one raises), absent fields keep their stored values, and
      a posted Id other than the path id is refused before the form runs. */
  function UpdateStopView(p: Parsers, s: Store, req: Request, id: int): (o: Outcome)
    ensures Gate(p, s, req) != Granted ==> o == Outcome(s, Refusal(Gate(p, s, req)))
    ensures Gate(p, s, req) == Granted && id !in s.stops ==> o == Outcome(s, NotFound)
    ensures o.reply == Done || o.store == s
    ensures o.reply == IdChangeRefused ==> "Id" in req.fields && p.parseInt(req.fields["Id"]).Some? && p.parseInt(req.fields["Id"]).value != id
    ensures o.reply == Done <==> (Gate(p, s, req) == Granted && id in s.stops &&
      var was := s.stops[id];
      var lat := DecimalOr(p, req, "Latitude", was.lat);
      var lon := DecimalOr(p, req, "Longitude", was.lon);
      lat.Some? && lon.Some? && IntOr(p, req, "Id", id) == Some(id) &&
      CheckStop(id, Posted(req, "Name", was.name), lat.value, lon.value).Some?)
    ensures o.reply == Done ==> var was := s.stops[id];
      StopWritten(s, o.store, id) &&
      Some(o.store.stops[id]) ==
        CheckStop(id, Posted(req, "Name", was.name), DecimalOr(p, req, "Latitude", was.lat).value, DecimalOr(p, req, "Longitude", was.lon).value)
    ensures ValidStore(s) ==> ValidStore(o.store)
  {
    var access := Gate(p, s, req);
    if access != Granted then Outcome(s, Refusal(access))
    else if id !in s.stops then Outcome(s, NotFound)
    else
      var was := s.stops[id];
      match (DecimalOr(p, req, "Latitude", was.lat), DecimalOr(p, req, "Longitude", was.lon), IntOr(p, req, "Id", id))
      case (Some(lat), Some(lon), Some(newId)) =>
        if newId != id then Outcome(s, IdChangeRefused)
        else (match CheckStop(id, Posted(req, "Name", was.name), lat, lon)
          case None => Outcome(s, FormRejected)
          case Some(st) => Outcome(PutStop(s, st), Done))
      case _ => Outcome(s, Failed)
  }

  /** `update_line`: the posted `Paradas` are added to the line's stops; none
      is ever dropped. The old stops go to the form as records, which it
      reads back as their ids. */
  function UpdateLineView(p: Parsers, s: Store, req: Request, id: int): (o: Outcome)
    ensures Gate(p, s, req) != Granted ==> o == Outcome(s, Refusal(Gate(p, s, req)))
    ensures Gate(p, s, req) == Granted && id !in s.lines ==> o == Outcome(s, NotFound)
    ensures o.reply == Done || o.store == s
    ensures o.reply == IdChangeRefused ==> "Id" in req.fields && p.parseInt(req.fields["Id"]).Some? && p.parseInt(req.fields["Id"]).value != id
    ensures o.reply == Done <==> (Gate(p, s, req) == Granted && id in s.lines &&
      var was := s.lines[id];
      IntOr(p, req, "Id", id) == Some(id) &&
      NamesStops(s.stops.Keys, req.stopList) &&
      ValidText(Posted(req, "Name", was.name), NameMax) && IsInt64(id) && was.stops <= s.stops.Keys)
    ensures o.reply == Done ==> var was := s.lines[id];
      LineWritten(s, o.store, id) &&
      o.store.lines[id] == Line(id, Posted(req, "Name", was.name), (set x | x in s.stops && IntText(x) in req.stopList) + was.stops)
    ensures ValidStore(s) ==> ValidStore(o.store)
  {
    var access := Gate(p, s, req);
    if access != Granted then Outcome(s, Refusal(access))
    else if id !in s.lines then Outcome(s, NotFound)
    else
      var was := s.lines[id];
      match IntOr(p, req, "Id", id)
      case None => Outcome(s, Failed)
      case Some(newId) =>
        if newId != id then Outcome(s, IdChangeRefused)
        else match ChosenStops(s.stops.Keys, req.stopList)
          case None => Outcome(s, FormRejected)
          case Some(ids) =>
            (match CheckLine(s, id, Posted(req, "Name", was.name), ids + was.stops)
              case None => Outcome(s, FormRejected)
              case Some(l) => Outcome(PutLine(s, l), Done))
  }

  /** `update_vehicle`: a posted LinhaId is converted by the form, so one that
      does not convert or names no line is a form error. */
  function UpdateVehicleView(p: Parsers, s: Store, req: Request, id: int): (o: Outcome)
    ensures Gate(p, s, req) != Granted ==> o == Outcome(s, Refusal(Gate(p, s, req)))
    ensures Gate(p, s, req) == Granted && id !in s.vehicles ==> o == Outcome(s, NotFound)
    ensures o.reply == Done || o.store == s
    ensures o.reply == IdChangeRefused ==> "Id" in req.fields && p.parseInt(req.fields["Id"]).Some? && p.parseInt(req.fields["Id"]).value != id
    ensures o.reply == Done <==> (Gate(p, s, req) == Granted && id in s.vehicles &&
      var was := s.vehicles[id];
      var line := IntOr(p, req, "LinhaId", was.line);
      IntOr(p, req, "Id", id) == Some(id) && line.Some? &&
      CheckVehicle(s, id, Posted(req, "Name", was.name), Posted(req, "Modelo", was.model), line.value).Some?)
    ensures o.reply == Done ==> var was := s.vehicles[id];
      VehicleWritten(s, o.store, id) &&
      o.store.vehicles[id] == Vehicle(id, Posted(req, "Name", was.name), Posted(req, "Modelo", was.model), IntOr(p, req, "LinhaId", was.line).value)
    ensures ValidStore(s) ==> ValidStore(o.store)
  {
    var access := Gate(p, s, req);
    if access != Granted then Outcome(s, Refusal(access))
    else if id !in s.vehicles then Outcome(s, NotFound)
    else
      var was := s.vehicles[id];
      match IntOr(p, req, "Id", id)
      case None => Outcome(s, Failed)
      case Some(newId) =>
        if newId != id then Outcome(s, IdChangeRefused)
        else match IntOr(p, req, "LinhaId", was.line)
          case None => Outcome(s, FormRejected)
          case Some(line) =>
            (match CheckVehicle(s, id, Posted(req, "Name", was.name), Posted(req, "Modelo", was.model), line)
              case None => Outcome(s, FormRejected)
              case Some(v) => Outcome(PutVehicle(s, v), Done))
  }

  /** `update_position`: no Id is read from the body (the key is the path
      id), and the coordinates are converted by the form. */
  function UpdatePositionView(p: Parsers, s: Store, req: Request, id: int): (o: Outcome)
    ensures Gate(p, s, req) != Granted ==> o == Outcome(s, Refusal(Gate(p, s, req)))
    ensures Gate(p, s, req) == Granted && id !in s.positions ==> o == Outcome(s, NotFound)
    ensures o.reply == Done || o.store == s
    ensures o.reply != IdChangeRefused
    ensures o.reply == Done <==> (Gate(p, s, req) == Granted && id in s.positions &&
      var was := s.positions[id];
      var lat := DecimalOr(p, req, "Latitude", was.lat);
      var lon := DecimalOr(p, req, "Longitude", was.lon);
      lat.Some? && lon.Some? && CheckPosition(s, id, lat.value, lon.value).Some?)
    ensures o.reply == Done ==> var was := s.positions[id];
      PositionWritten(s, o.store, id) &&
      Some(o.store.positions[id]) ==
        CheckPosition(s, id, DecimalOr(p, req, "Latitude", was.lat).value, DecimalOr(p, req, "Longitude", was.lon).value)
    ensures ValidStore(s) ==> ValidStore(o.store)
  {
    var access := Gate(p, s, req);
    if access != Granted then Outcome(s, Refusal(access))
    else if id !in s.positions then Outcome(s, NotFound)
    else
      var was := s.positions[id];
      match (DecimalOr(p, req, "Latitude", was.lat), DecimalOr(p, req, "Longitude", was.lon))
      case (Some(lat), Some(lon)) =>
        (match CheckPosition(s, id, lat, lon)
          case None => Outcome(s, FormRejected)
          case Some(q) => Outcome(PutPosition(s, q), Done))
      case _ => Outcome(s, FormRejected)
  }

  // ---------------------------------------------------------------------------
  // Delete: the record is looked up before the token is read
  // ---------------------------------------------------------------------------

  /** `delete_stop`: the stop is unlinked from every line. */
  function DeleteStopView(p: Parsers, s: Store, req: Request, id: int): (o: Outcome)
    ensures id !in s.stops ==> o == Outcome(s, NotFound)
    ensures id in s.stops && Gate(p, s, req) != Granted ==> o == Outcome(s, Refusal(Gate(p, s, req)))
    ensures o.reply == Done <==> id in s.stops && Gate(p, s, req) == Granted
    ensures o.reply == Done ==> o.store == DeleteStop(s, id) && id !in o.store.stops
    ensures o.reply != Done ==> o.store == s
    ensures ValidStore(s) ==> ValidStore(o.store)
  {
    if id !in s.stops then Outcome(s, NotFound)
    else
      var access := Gate(p, s, req);
      if access != Granted then Outcome(s, Refusal(access)) else Outcome(DeleteStop(s, id), Done)
  }

  /** `delete_line`: the line's vehicles and their positions go with it. */
  function DeleteLineView(p: Parsers, s: Store, req: Request, id: int): (o: Outcome)
    ensures id !in s.lines ==> o == Outcome(s, NotFound)
    ensures id in s.lines && Gate(p, s, req) != Granted ==> o == Outcome(s, Refusal(Gate(p, s, req)))
    ensures o.reply == Done <==> id in s.lines && Gate(p, s, req) == Granted
    ensures o.reply == Done ==> o.store == DeleteLine(s, id) && id !in o.store.lines
    ensures o.reply != Done ==> o.store == s
    ensures ValidStore(s) ==> ValidStore(o.store)
  {
    if id !in s.lines then Outcome(s, NotFound)
    else
      var access := Gate(p, s, req);
      if access != Granted then Outcome(s, Refusal(access)) else Outcome(DeleteLine(s, id), Done)
  }

  /** `delete_vehicle`: the vehicle's position goes with it. */
  function DeleteVehicleView(p: Parsers, s: Store, req: Request, id: int): (o: Outcome)
    ensures id !in s.vehicles ==> o == Outcome(s, NotFound)
    ensures id in s.vehicles && Gate(p, s, req) != Granted ==> o == Outcome(s, Refusal(Gate(p, s, req)))
    ensures o.reply == Done <==> id in s.vehicles && Gate(p, s, req) == Granted
    ensures o.reply == Done ==> o.store == DeleteVehicle(s, id) && id !in o.store.vehicles && id !in o.store.positions
    ensures o.reply != Done ==> o.store == s
    ensures ValidStore(s) ==> ValidStore(o.store)
  {
    if id !in s.vehicles then Outcome(s, NotFound)
    else
      var access := Gate(p, s, req);
      if access != Granted then Outcome(s, Refusal(access)) else Outcome(DeleteVehicle(s, id), Done)
  }

  /** `delete_position` as written: with access granted it builds its reply
      from `position.id`, an attribute a model keyed by VeiculoId does not
      have, so the call fails before the delete and nothing is ever removed. */
  function DeletePositionView(p: Parsers, s: Store, req: Request, id: int): (o: Outcome)
    ensures id !in s.positions ==> o == Outcome(s, NotFound)
    ensures id in s.positions && Gate(p, s, req) != Granted ==> o == Outcome(s, Refusal(Gate(p, s, req)))
    ensures id in s.positions && Gate(p, s, req) == Granted ==> o == Outcome(s, Failed)
    ensures o.store == s
  {
    if id !in s.positions then Outcome(s, NotFound)
    else
      var access := Gate(p, s, req);
      if access != Granted then Outcome(s, Refusal(access)) else Outcome(s, Failed)
  }

  /** `delete_position` as evidently intended: the same lookup and gate, then
      the position is removed. */
  function DeletePositionViewFixed(p: Parsers, s: Store, req: Request, id: int): (o: Outcome)
    ensures id !in s.positions ==> o == Outcome(s, NotFound)
    ensures id in s.positions && Gate(p, s, req) != Granted ==> o == Outcome(s, Refusal(Gate(p, s, req)))
    ensures o.reply == Done <==> id in s.positions && Gate(p, s, req) == Granted
    ensures o.reply == Done ==> o.store == DeletePosition(s, id) && id !in o.store.positions && o.store.vehicles == s.vehicles
    ensures o.reply != Done ==> o.store == s
    ensures ValidStore(s) ==> ValidStore(o.store)
  {
    if id !in s.positions then Outcome(s, NotFound)
    else
      var access := Gate(p, s, req);
      if access != Granted then Outcome(s, Refusal(access)) else Outcome(DeletePosition(s, id), Done)
  }

  /** The two `delete_position` versions agree on every call except a granted
      delete of an existing position, where only the corrected one deletes. */
  lemma DeletePositionDiffers(p: Parsers, s: Store, req: Request, id: int)
    ensures id in s.positions && Gate(p, s, req) == Granted ==>
      id in DeletePositionView(p, s, req, id).store.positions &&
      id !in DeletePositionViewFixed(p, s, req, id).store.positions
    ensures !(id in s.positions && Gate(p, s, req) == Granted) ==>
      DeletePositionView(p, s, req, id) == DeletePositionViewFixed(p, s, req, id)
  {
  }

  // ---------------------------------------------------------------------------
  // Unlinking stops from a line
  // ---------------------------------------------------------------------------

  /** Every id is linked when its turn comes: linked to the line and not
      already named earlier in the list. */
  predicate LinkedInTurn(linked: set<int>, ids: seq<int>) {
    forall k :: 0 <= k < |ids| ==> ids[k] in linked && ids[k] !in ids[..k]
  }

  lemma LinkedInTurnStep(linked: set<int>, ids: seq<int>)
    requires ids != []
    ensures LinkedInTurn(linked, ids) <==> ids[0] in linked && LinkedInTurn(linked - {ids[0]}, ids[1..])
  {
    if ids[0] in linked && LinkedInTurn(linked - {ids[0]}, ids[1..]) {
      forall k | 0 <= k < |ids|
        ensures ids[k] in linked && ids[k] !in ids[..k]
      {
        if k > 0 {
          assert ids[k] == ids[1..][k - 1];
          assert ids[..k] == [ids[0]] + ids[1..][..k - 1];
        }
      }
    }
    if LinkedInTurn(linked, ids) {
      forall k | 0 <= k < |ids[1..]|
        ensures ids[1..][k] in linked - {ids[0]} && ids[1..][k] !in ids[1..][..k]
      {
        assert ids[1..][k] == ids[k + 1];
        assert ids[..k + 1] == [ids[0]] + ids[1..][..k];
      }
    }
  }

  /** The loop as written reached text k — every earlier text converted and
      was linked in its turn — and stopped there. The stops left are the
      linked ones less the ids before k; the reply says why text k stopped
      it: it does not convert, or its id is not (or no longer) linked. */
  ghost predicate StopsAt(p: Parsers, linked: set<int>, texts: seq<string>, k: nat, r: (set<int>, Reply)) {
    && k < |texts|
    && ParseAll(p, texts[..k]).Some?
    && LinkedInTurn(linked, ParseAll(p, texts[..k]).value)
    && r.0 == linked - ElemsOf(ParseAll(p, texts[..k]).value)
    && match p.parseInt(texts[k])
       case None => r.1 == Failed
       case Some(x) => r.1 == NotLinked && x !in r.0
  }

  /** A loop that stops at its first text removes nothing. */
  lemma StopsAtHead(p: Parsers, linked: set<int>, texts: seq<string>)
    requires texts != []
    ensures p.parseInt(texts[0]).None? ==> StopsAt(p, linked, texts, 0, (linked, Failed))
    ensures p.parseInt(texts[0]).Some? && p.parseInt(texts[0]).value !in linked ==>
      StopsAt(p, linked, texts, 0, (linked, NotLinked))
  {
    assert texts[..0] == [];
  }

  /** Unlinking the first id and then the rest is unlinking the whole list. */
  lemma UnlinkedCons(p: Parsers, linked: set<int>, texts: seq<string>, x: int)
    requires texts != [] && p.parseInt(texts[0]) == Some(x)
    ensures (ParseAll(p, texts).Some? && LinkedInTurn(linked, ParseAll(p, texts).value)) <==>
      (x in linked && ParseAll(p, texts[1..]).Some? && LinkedInTurn(linked - {x}, ParseAll(p, texts[1..]).value))
    ensures ParseAll(p, texts).Some? ==>
      linked - ElemsOf(ParseAll(p, texts).value) == (linked - {x}) - ElemsOf(ParseAll(p, texts[1..]).value)
  {
    ParseAllCons(p, texts);
    if ParseAll(p, texts).Some? {
      var ids := ParseAll(p, texts).value;
      LinkedInTurnStep(linked, ids);
      assert ElemsOf(ids) == {x} + ElemsOf(ids[1..]);
    }
  }

  /** A stop at text k of the rest, after the first id was unlinked, is a
      stop at text k + 1 of the whole list. */
  lemma StopsAtCons(p: Parsers, linked: set<int>, texts: seq<string>, x: int, k: nat, r: (set<int>, Reply))
    requires texts != [] && p.parseInt(texts[0]) == Some(x) && x in linked
    requires StopsAt(p, linked - {x}, texts[1..], k, r)
    ensures StopsAt(p, linked, texts, k + 1, r)
  {
    var pre := texts[..k + 1];
    assert pre[0] == texts[0] && pre[1..] == texts[1..][..k];
    UnlinkedCons(p, linked, pre, x);
    assert texts[k + 1] == texts[1..][k];
  }

  /** The loop of `remove_stop_from_line` as written: each posted text is
      looked up among the line's stops and unlinked; the first text that does
      not convert raises, and the first id that is not linked (any more) ends
      the loop with the "no stop linked" reply. Unlinks already done stay. */
  function UnlinkEach(p: Parsers, linked: set<int>, texts: seq<string>, removedAny: bool): (r: (set<int>, Reply))
    ensures r.0 <= linked
    ensures r.1.Unlinked? || r.1 == NotLinked || r.1 == Failed
    ensures r.1.Unlinked? <==> ParseAll(p, texts).Some? && LinkedInTurn(linked, ParseAll(p, texts).value)
    ensures r.1.Unlinked? ==> r.0 == linked - ElemsOf(ParseAll(p, texts).value) && r.1.removedAny == (removedAny || texts != [])
    ensures !r.1.Unlinked? ==> exists k :: StopsAt(p, linked, texts, k, r)
    ensures forall x :: x in linked && x !in r.0 ==> exists k :: 0 <= k < |texts| && p.parseInt(texts[k]) == Some(x)
    decreases |texts|
  {
    if texts == [] then (linked, Unlinked(removedAny))
    else
      ParseAllCons(p, texts);
      StopsAtHead(p, linked, texts);
      match p.parseInt(texts[0])
      case None => (linked, Failed)
      case Some(x) =>
        if x !in linked then (linked, NotLinked)
        else
          var r := UnlinkEach(p, linked - {x}, texts[1..], true);
          UnlinkedCons(p, linked, texts, x);
          assert forall k :: 0 <= k < |texts[1..]| ==> texts[1..][k] == texts[k + 1];
          assert !r.1.Unlinked? ==> exists k :: StopsAt(p, linked, texts, k, r) by {
            if !r.1.Unlinked? {
              var k :| StopsAt(p, linked - {x}, texts[1..], k, r);
              StopsAtCons(p, linked, texts, x, k, r);
            }
          }
          r
  }

  /** Skipping or unlinking the first id and then handling the rest is
      handling the whole list. */
  lemma SkippedCons(p: Parsers, linked: set<int>, texts: seq<string>, x: int)
    requires texts != [] && p.parseInt(texts[0]) == Some(x)
    ensures ParseAll(p, texts).Some? <==> ParseAll(p, texts[1..]).Some?
    ensures ParseAll(p, texts).Some? ==>
      var ids := ParseAll(p, texts).value;
      var rest := ParseAll(p, texts[1..]).value;
      linked - ElemsOf(ids) == (linked - {x}) - ElemsOf(rest) &&
      ((exists y :: y in linked && y in ids) <==> (x in linked || exists y :: y in linked - {x} && y in rest))
  {
    ParseAllCons(p, texts);
    if ParseAll(p, texts).Some? {
      var ids := ParseAll(p, texts).value;
      assert ids == [x] + ids[1..];
      assert forall y :: (y in linked && y in ids) <==> ((y == x && x in linked) || (y in linked - {x} && y in ids[1..]));
    }
  }

  /** The loop as its comment promises: ids that are not linked are skipped. */
  function UnlinkEachFixed(p: Parsers, linked: set<int>, texts: seq<string>, removedAny: bool): (r: (set<int>, Reply))
    ensures r.0 <= linked
    ensures r.1.Unlinked? || r.1 == Failed
    ensures r.1.Unlinked? <==> ParseAll(p, texts).Some?
    ensures r.1.Unlinked? ==>
      r.0 == linked - ElemsOf(ParseAll(p, texts).value) &&
      r.1.removedAny == (removedAny || exists x :: x in linked && x in ParseAll(p, texts).value)
    decreases |texts|
  {
    if texts == [] then (linked, Unlinked(removedAny))
    else match p.parseInt(texts[0])
      case None =>
        ParseAllCons(p, texts);
        (linked, Failed)
      case Some(x) =>
        SkippedCons(p, linked, texts, x);
        UnlinkEachFixed(p, linked - {x}, texts[1..], removedAny || x in linked)
  }

  /** Where every posted id is linked in turn, the code as written and the
      corrected loop agree. */
  lemma {:induction false} UnlinkAgreesWhenAllLinked(p: Parsers, linked: set<int>, texts: seq<string>, removedAny: bool)
    requires ParseAll(p, texts).Some? && LinkedInTurn(linked, ParseAll(p, texts).value)
    ensures UnlinkEach(p, linked, texts, removedAny) == UnlinkEachFixed(p, linked, texts, removedAny)
    decreases |texts|
  {
    if texts != [] {
      var ids := ParseAll(p, texts).value;
      var x := ids[0];
      assert ids[1..] == ParseAll(p, texts[1..]).value;
      LinkedInTurnStep(linked, ids);
      UnlinkAgreesWhenAllLinked(p, linked - {x}, texts[1..], true);
    }
  }

  /** The input that shows the difference: stops {1, 2} linked, "3" then "1"
      posted. As written the loop stops at 3 and stop 1 stays linked; the
      corrected loop skips 3 and unlinks 1. */
  lemma UnlinkStopsAtFirstUnlinked()
    ensures var p := Parsers(t => if t == "1" then Some(1) else if t == "3" then Some(3) else None, t => None, t => None);
      UnlinkEach(p, {1, 2}, ["3", "1"], false) == ({1, 2}, NotLinked) &&
      UnlinkEachFixed(p, {1, 2}, ["3", "1"], false) == ({2}, Unlinked(true))
  {
    var p := Parsers(t => if t == "1" then Some(1) else if t == "3" then Some(3) else None, t => None, t => None);
    var texts: seq<string> := ["3", "1"];
    assert texts[1..] == ["1"];
    assert ({1, 2} - {3}) - {1} == {2};
  }

  /** Unlinks done before the loop stops stay done: with stops {1, 2} linked
      and "1", "3", "abc", "2" posted, stop 1 is unlinked, the loop stops at 3,
      and neither "abc" nor stop 2 is reached. */
  lemma UnlinkKeepsEarlierRemovals()
    ensures var p := Parsers(t => if t == "1" then Some(1) else if t == "2" then Some(2) else if t == "3" then Some(3) else None, t => None, t => None);
      UnlinkEach(p, {1, 2}, ["1", "3", "abc", "2"], false) == ({2}, NotLinked)
  {
    var p := Parsers(t => if t == "1" then Some(1) else if t == "2" then Some(2) else if t == "3" then Some(3) else None, t => None, t => None);
    var texts: seq<string> := ["1", "3", "abc", "2"];
    assert texts[1..] == ["3", "abc", "2"];
    assert {1, 2} - {1} == {2};
  }

  /** `remove_stop_from_line` as written. A missing line raises a lookup error
      that the view's "stop not found" handler does not catch, so the reply
      is the bare exception message. */
  function RemoveStopsView(p: Parsers, s: Store, req: Request, id: int): (o: Outcome)
    ensures Gate(p, s, req) != Granted ==> o == Outcome(s, Refusal(Gate(p, s, req)))
    ensures Gate(p, s, req) == Granted && id !in s.lines ==> o == Outcome(s, Failed)
    ensures Gate(p, s, req) == Granted && id in s.lines ==>
      LineWritten(s, o.store, id) && o.store.lines[id].stops <= s.lines[id].stops &&
      o.store.lines[id].id == s.lines[id].id && o.store.lines[id].name == s.lines[id].name &&
      (o.reply.Unlinked? <==> ParseAll(p, req.stopList).Some? && LinkedInTurn(s.lines[id].stops, ParseAll(p, req.stopList).value)) &&
      (o.reply.Unlinked? ==>
        o.store.lines[id].stops == s.lines[id].stops - ElemsOf(ParseAll(p, req.stopList).value) &&
        o.reply.removedAny == (req.stopList != [])) &&
      (!o.reply.Unlinked? ==> exists k :: StopsAt(p, s.lines[id].stops, req.stopList, k, (o.store.lines[id].stops, o.reply)))
    ensures ValidStore(s) ==> ValidStore(o.store)
  {
    var access := Gate(p, s, req);
    if access != Granted then Outcome(s, Refusal(access))
    else if id !in s.lines then Outcome(s, Failed)
    else
      var was := s.lines[id];
      var r := UnlinkEach(p, was.stops, req.stopList, false);
      var o := Outcome(s.(lines := s.lines[id := was.(stops := r.0)]), r.1);
      assert (o.store.lines[id].stops, o.reply) == r;
      o
  }

  /** `remove_stop_from_line` as evidently intended: posted ids that are not
      linked are ignored. */
  function RemoveStopsViewFixed(p: Parsers, s: Store, req: Request, id: int): (o: Outcome)
    ensures Gate(p, s, req) != Granted ==> o == Outcome(s, Refusal(Gate(p, s, req)))
    ensures Gate(p, s, req) == Granted && id !in s.lines ==> o == Outcome(s, Failed)
    ensures Gate(p, s, req) == Granted && id in s.lines ==>
      LineWritten(s, o.store, id) && o.store.lines[id].stops <= s.lines[id].stops &&
      o.store.lines[id].id == s.lines[id].id && o.store.lines[id].name == s.lines[id].name &&
      (o.reply.Unlinked? <==> ParseAll(p, req.stopList).Some?) &&
      (o.reply.Unlinked? ==> o.store.lines[id].stops == s.lines[id].stops - ElemsOf(ParseAll(p, req.stopList).value))
    ensures ValidStore(s) ==> ValidStore(o.store)
  {
    var access := Gate(p, s, req);
    if access != Granted then Outcome(s, Refusal(access))
    else if id !in s.lines then Outcome(s, Failed)
    else
      var was := s.lines[id];
      var r := UnlinkEachFixed(p, was.stops, req.stopList, false);
      Outcome(s.(lines := s.lines[id := was.(stops := r.0)]), r.1)
  }

  // ---------------------------------------------------------------------------
  // Create and delete are inverse; an edit that posts nothing keeps the record
  // ---------------------------------------------------------------------------

  /** A stop created and then deleted with the same credentials leaves the
      store as it was: a new stop is on no line. */
  lemma {:induction false} NewStopThenDelete(p: Parsers, s: Store, req: Request)
    requires ValidStore(s)
    requires NewStopView(p, s, req).reply == Done
    ensures var id := FormInt(p, req, "Id").value;
      DeleteStopView(p, NewStopView(p, s, req).store, req, id) == Outcome(s, Done)
  {
    var id := FormInt(p, req, "Id").value;
    var t := NewStopView(p, s, req).store;
    assert Gate(p, t, req) == Gate(p, s, req);
    var r := DeleteStop(t, id);
    assert r.stops == s.stops;
    forall k | k in s.lines
      ensures r.lines[k] == s.lines[k]
    {
      assert id !in s.lines[k].stops;
    }
    assert r.lines == s.lines;
  }

  /** A line created and then deleted leaves the store as it was: a new line
      has no vehicles to take with it. */
  lemma {:induction false} NewLineThenDelete(p: Parsers, s: Store, req: Request)
    requires ValidStore(s)
    requires NewLineView(p, s, req).reply == Done
    ensures var id := FormInt(p, req, "Id").value;
      DeleteLineView(p, NewLineView(p, s, req).store, req, id) == Outcome(s, Done)
  {
    var id := FormInt(p, req, "Id").value;
    var t := NewLineView(p, s, req).store;
    assert Gate(p, t, req) == Gate(p, s, req);
    assert t.vehicles == s.vehicles && id !in s.lines;
    forall v | v in t.vehicles
      ensures t.vehicles[v].line != id
    {
      assert s.vehicles[v].line in s.lines;
    }
    assert VehiclesOf(t, id) == {};
    assert t.vehicles - {} == s.vehicles;
    assert t.positions - {} == s.positions;
    assert t.lines - {id} == s.lines;
  }

  /** A vehicle created and then deleted leaves the store as it was: a new
      vehicle has no position yet. */
  lemma {:induction false} NewVehicleThenDelete(p: Parsers, s: Store, req: Request)
    requires ValidStore(s)
    requires NewVehicleView(p, s, req).reply == Done
    ensures var id := FormInt(p, req, "Id").value;
      DeleteVehicleView(p, NewVehicleView(p, s, req).store, req, id) == Outcome(s, Done)
  {
    var id := FormInt(p, req, "Id").value;
    var t := NewVehicleView(p, s, req).store;
    assert Gate(p, t, req) == Gate(p, s, req);
    assert id !in s.positions;
    assert t.vehicles - {id} == s.vehicles;
    assert t.positions - {id} == s.positions;
  }

  /** A position created and then deleted by the corrected view leaves the
      store as it was; the view as written leaves the position in place. */
  lemma {:induction false} NewPositionThenDelete(p: Parsers, s: Store, req: Request)
    requires NewPositionView(p, s, req).reply == Done
    ensures var id := FormKey(p, req, "VeiculoId").value;
      var t := NewPositionView(p, s, req).store;
      DeletePositionViewFixed(p, t, req, id) == Outcome(s, Done) &&
      DeletePositionView(p, t, req, id) == Outcome(t, Failed)
  {
    var id := FormKey(p, req, "VeiculoId").value;
    var t := NewPositionView(p, s, req).store;
    assert Gate(p, t, req) == Gate(p, s, req);
    assert t.positions - {id} == s.positions;
  }

  /** Only the token is posted: nothing but the token field is present. */
  predicate OnlyToken(req: Request) {
    req.fields.Keys <= {"auth"} && req.stopList == []
  }

  /** An edit that posts only the token rewrites every field with its stored
      value: the store is unchanged and the call succeeds. */
  lemma UntouchedStopUpdate(p: Parsers, s: Store, req: Request, id: int)
    requires ValidStore(s) && OnlyToken(req) && Gate(p, s, req) == Granted && id in s.stops
    ensures UpdateStopView(p, s, req, id) == Outcome(s, Done)
  {
    var was := s.stops[id];
    assert ToMicro(StoredDecimal(was.lat), LatBound) == Some(was.lat);
    assert ToMicro(StoredDecimal(was.lon), LonBound) == Some(was.lon);
    assert s.stops[id := was] == s.stops;
  }

  lemma UntouchedLineUpdate(p: Parsers, s: Store, req: Request, id: int)
    requires ValidStore(s) && OnlyToken(req) && Gate(p, s, req) == Granted && id in s.lines
    ensures UpdateLineView(p, s, req, id) == Outcome(s, Done)
  {
    var was := s.lines[id];
    assert NamesStops(s.stops.Keys, req.stopList);
    var chosen := ChosenStops(s.stops.Keys, req.stopList).value;
    assert forall x :: x !in chosen by {
      assert req.stopList == [];
    }
    assert chosen + was.stops == was.stops;
    assert s.lines[id := was] == s.lines;
  }

  lemma UntouchedVehicleUpdate(p: Parsers, s: Store, req: Request, id: int)
    requires ValidStore(s) && OnlyToken(req) && Gate(p, s, req) == Granted && id in s.vehicles
    ensures UpdateVehicleView(p, s, req, id) == Outcome(s, Done)
  {
    var was := s.vehicles[id];
    assert s.vehicles[id := was] == s.vehicles;
  }

  lemma UntouchedPositionUpdate(p: Parsers, s: Store, req: Request, id: int)
    requires ValidStore(s) && OnlyToken(req) && Gate(p, s, req) == Granted && id in s.positions
    ensures UpdatePositionView(p, s, req, id) == Outcome(s, Done)
  {
    var was := s.positions[id];
    assert ToMicro(StoredDecimal(was.lat), LatBound) == Some(was.lat);
    assert ToMicro(StoredDecimal(was.lon), LonBound) == Some(was.lon);
    assert s.positions[id := was] == s.positions;
  }
}
