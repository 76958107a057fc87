/** CSV import of Stops, Lines, Vehicles and Positions, in insert mode
    (`import_*`) and update mode (`import_*_update`).

    A call passes the token gate, then folds its rows over the store: each row
    either saves one record, or lands its Id text in the invalid list, or
    raises, which ends the call with the exception's message while every row
    saved before it stays saved. In update mode every per-row failure is caught,
    so only a blank row (whose Id is read before the per-row `try`) can raise. */
module Imports {
  import opened Basics
  import opened Models
  import opened Requests

  /** One CSV record as the reader yields it. */
  type Row = seq<string>

  /** What one row does to the batch. */
  datatype RowOutcome =
    | Saved(store: Store)   // the form validated and the record was saved
    | Invalid               // the form did not validate (or, in update mode, anything failed)
    | Raised                // an exception escaped the loop

  /** The state of a batch: the store, the Id texts accepted and refused so
      far, one verdict per row handled (true = accepted), and whether a row
      raised. */
  datatype Batch = Batch(store: Store, valid: seq<string>, invalid: seq<string>, verdicts: seq<bool>, aborted: bool)

  /** The Id text of a row, verbatim (`i[0]`). */
  function IdOf(row: Row): string {
    if |row| > 0 then row[0] else ""
  }

  function IdsOf(rows: seq<Row>): (ids: seq<string>)
    ensures |ids| == |rows|
    decreases |rows|
  {
    if rows == [] then [] else [IdOf(rows[0])] + IdsOf(rows[1..])
  }

  /** The ids whose verdict is `want`, in order. */
  function Pick(ids: seq<string>, verdicts: seq<bool>, want: bool): seq<string>
    requires |ids| == |verdicts|
    decreases |ids|
  {
    if ids == [] then []
    else (if verdicts[0] == want then [ids[0]] else []) + Pick(ids[1..], verdicts[1..], want)
  }

  lemma IdsOfPrefix(rows: seq<Row>, n: nat)
    requires 0 < n <= |rows|
    ensures IdsOf(rows[..n]) == [IdOf(rows[0])] + IdsOf(rows[1..][..n - 1])
  {
    assert rows[..n][0] == rows[0];
    assert rows[..n][1..] == rows[1..][..n - 1];
  }

  /** The row loop. Every handled row's Id text goes to exactly one of the two
      lists, each list keeps the rows' order, and the loop stops only at a
      blank row or at a row whose step raises. */
  function RunBatch(s: Store, rows: seq<Row>, step: (Store, Row) -> RowOutcome): (b: Batch)
    ensures |b.verdicts| <= |rows|
    ensures b.valid == Pick(IdsOf(rows[..|b.verdicts|]), b.verdicts, true)
    ensures b.invalid == Pick(IdsOf(rows[..|b.verdicts|]), b.verdicts, false)
    ensures !b.aborted ==> |b.verdicts| == |rows|
    ensures b.aborted ==> |b.verdicts| < |rows| && (|rows[|b.verdicts|]| == 0 || step(b.store, rows[|b.verdicts|]).Raised?)
    decreases |rows|
  {
    if rows == [] then Batch(s, [], [], [], false)
    else if |rows[0]| == 0 then Batch(s, [], [], [], true)
    else
      match step(s, rows[0])
      case Raised => Batch(s, [], [], [], true)
      case Invalid =>
        var b := RunBatch(s, rows[1..], step);
        IdsOfPrefix(rows, |b.verdicts| + 1);
        b.(invalid := [rows[0][0]] + b.invalid, verdicts := [false] + b.verdicts)
      case Saved(t) =>
        var b := RunBatch(t, rows[1..], step);
        IdsOfPrefix(rows, |b.verdicts| + 1);
        b.(valid := [rows[0][0]] + b.valid, verdicts := [true] + b.verdicts)
  }

  /** Every saved row keeps the invariant and the token table. */
  ghost predicate KeepsValid(step: (Store, Row) -> RowOutcome) {
    forall t: Store, row: Row :: step(t, row).Saved? ==>
      (ValidStore(t) ==> ValidStore(step(t, row).store)) && step(t, row).store.tokens == t.tokens
  }

  ghost predicate NeverRaises(step: (Store, Row) -> RowOutcome) {
    forall t: Store, row: Row :: !step(t, row).Raised?
  }

  /** A row that raises ends the batch: what is left is exactly the batch of the
      rows before it, which all stay saved. */
  lemma {:induction false} AbortKeepsPrefix(s: Store, rows: seq<Row>, step: (Store, Row) -> RowOutcome)
    ensures var b := RunBatch(s, rows, step);
      var pre := RunBatch(s, rows[..|b.verdicts|], step);
      pre == b.(aborted := false)
    decreases |rows|
  {
    var b := RunBatch(s, rows, step);
    if rows == [] || |rows[0]| == 0 || step(s, rows[0]).Raised? {
      assert rows[..|b.verdicts|] == [];
    } else {
      var n := |b.verdicts|;
      var pre := rows[..n];
      assert pre[0] == rows[0] && pre[1..] == rows[1..][..n - 1];
      match step(s, rows[0])
      case Invalid =>
        AbortKeepsPrefix(s, rows[1..], step);
      case Saved(t) =>
        AbortKeepsPrefix(t, rows[1..], step);
    }
  }

  /** A row with no fields at all. */
  predicate HasBlankRow(rows: seq<Row>) {
    exists k :: 0 <= k < |rows| && |rows[k]| == 0
  }

  /** When no row can raise, the batch ends early exactly when the file holds
      a blank row; otherwise every row is handled and lands in one list. */
  lemma {:induction false} NoRaiseAbortsOnlyAtBlank(s: Store, rows: seq<Row>, step: (Store, Row) -> RowOutcome)
    ensures NeverRaises(step) ==> (RunBatch(s, rows, step).aborted <==> HasBlankRow(rows))
    ensures NeverRaises(step) && !HasBlankRow(rows) ==>
      |RunBatch(s, rows, step).valid| + |RunBatch(s, rows, step).invalid| == |rows|
    decreases |rows|
  {
    if rows != [] && NeverRaises(step) {
      if |rows[0]| == 0 {
        assert HasBlankRow(rows);
      } else {
        assert HasBlankRow(rows) <==> HasBlankRow(rows[1..]) by {
          if HasBlankRow(rows) {
            var k :| 0 <= k < |rows| && |rows[k]| == 0;
            assert rows[1..][k - 1] == rows[k];
          }
          if HasBlankRow(rows[1..]) {
            var k :| 0 <= k < |rows[1..]| && |rows[1..][k]| == 0;
            assert rows[k + 1] == rows[1..][k];
          }
        }
        match step(s, rows[0])
        case Invalid =>
          NoRaiseAbortsOnlyAtBlank(s, rows[1..], step);
        case Saved(t) =>
          NoRaiseAbortsOnlyAtBlank(t, rows[1..], step);
      }
    }
  }

  /** A batch keeps the store invariant and the token table when each saved
      row does. */
  lemma {:induction false} BatchKeepsValid(s: Store, rows: seq<Row>, step: (Store, Row) -> RowOutcome)
    ensures KeepsValid(step) ==> (ValidStore(s) ==> ValidStore(RunBatch(s, rows, step).store))
    ensures KeepsValid(step) ==> RunBatch(s, rows, step).store.tokens == s.tokens
    decreases |rows|
  {
    if rows != [] && |rows[0]| > 0 && KeepsValid(step) {
      match step(s, rows[0])
      case Raised =>
      case Invalid =>
        BatchKeepsValid(s, rows[1..], step);
      case Saved(t) =>
        BatchKeepsValid(t, rows[1..], step);
    }
  }

  // ---------------------------------------------------------------------------
  // The result text
  // ---------------------------------------------------------------------------

  /** The two section headings of a result text. */
  datatype Headers = Headers(accepted: string, rejected: string)

  /** `valid += Id + '\n'` over the ids. */
  function Accumulate(ids: seq<string>): (r: string)
    ensures ids != [] ==> r != []
    decreases |ids|
  {
    if ids == [] then "" else ids[0] + "\n" + Accumulate(ids[1..])
  }

  /** `text[:-1]`. */
  function DropLast(text: string): string {
    if text == [] then text else text[..|text| - 1]
  }

  /** The ids separated by newlines, with none after the last. */
  function Join(ids: seq<string>): string
    decreases |ids|
  {
    if ids == [] then "" else if |ids| == 1 then ids[0] else ids[0] + "\n" + Join(ids[1..])
  }

  lemma {:induction false} AccumulateThenDrop(ids: seq<string>)
    ensures DropLast(Accumulate(ids)) == Join(ids)
    decreases |ids|
  {
    if ids != [] {
      var rest := Accumulate(ids[1..]);
      assert Accumulate(ids) == ids[0] + "\n" + rest;
      if |ids| == 1 {
        assert rest == "";
        assert (ids[0] + "\n")[..|ids[0]|] == ids[0];
      } else {
        AccumulateThenDrop(ids[1..]);
        assert (ids[0] + "\n" + rest)[..|ids[0]| + 1 + |rest| - 1] == ids[0] + "\n" + rest[..|rest| - 1];
      }
    }
  }

  /** The result text: first heading, accepted ids, second heading, refused
      ids, each list newline-separated. No newline precedes the second
      heading, so after a non-empty accepted list it shares a line with the
      last accepted id. */
  function Render(h: Headers, valid: seq<string>, invalid: seq<string>): (text: string)
    ensures text == h.accepted + Join(valid) + h.rejected + Join(invalid)
  {
    AccumulateThenDrop(valid);
    AccumulateThenDrop(invalid);
    h.accepted + DropLast(Accumulate(valid)) + h.rejected + DropLast(Accumulate(invalid))
  }

  // ---------------------------------------------------------------------------
  // The view around the loop
  // ---------------------------------------------------------------------------

  /** Gate first, then the uploaded file, then the loop; a row that raised
      turns the reply into the exception's message, and what was saved before
      it stays saved. */
  function RunImport(p: Parsers, s: Store, auth: Option<string>, file: Option<seq<Row>>,
                     step: (Store, Row) -> RowOutcome, h: Headers): (o: Outcome)
    ensures Authorize(s.tokens, auth, p) != Granted ==> o == Outcome(s, Refusal(Authorize(s.tokens, auth, p)))
    ensures Authorize(s.tokens, auth, p) == Granted && file.None? ==> o == Outcome(s, MissingKey)
    ensures Authorize(s.tokens, auth, p) == Granted && file.Some? ==>
      var b := RunBatch(s, file.value, step);
      o.store == b.store && (o.reply == Failed <==> b.aborted) &&
      (b.aborted ==> RunBatch(s, file.value[..|b.verdicts|], step) == b.(aborted := false)) &&
      (!b.aborted ==> o.reply == Report(h.accepted + Join(b.valid) + h.rejected + Join(b.invalid)))
    ensures KeepsValid(step) ==> (ValidStore(s) ==> ValidStore(o.store)) && o.store.tokens == s.tokens
    ensures NeverRaises(step) && Authorize(s.tokens, auth, p) == Granted && file.Some? ==>
      var rows := file.value;
      var b := RunBatch(s, rows, step);
      (o.reply == Failed <==> HasBlankRow(rows)) &&
      (!HasBlankRow(rows) ==>
        |b.verdicts| == |rows| &&
        o.reply == Report(h.accepted + Join(Pick(IdsOf(rows), b.verdicts, true)) + h.rejected + Join(Pick(IdsOf(rows), b.verdicts, false))))
  {
    var access := Authorize(s.tokens, auth, p);
    if access != Granted then Outcome(s, Refusal(access))
    else if file.None? then Outcome(s, MissingKey)
    else
      var rows := file.value;
      var b := RunBatch(s, rows, step);
      AbortKeepsPrefix(s, rows, step);
      BatchKeepsValid(s, rows, step);
      NoRaiseAbortsOnlyAtBlank(s, rows, step);
      assert rows[..|rows|] == rows;
      if b.aborted then Outcome(b.store, Failed) else Outcome(b.store, Report(Render(h, b.valid, b.invalid)))
  }

  // ---------------------------------------------------------------------------
  // Converting columns
  // ---------------------------------------------------------------------------

  /** An update-mode text column: an empty cell keeps the stored value. */
  function TextOr(cell: string, stored: string): (r: string)
    ensures cell != "" ==> r == cell
    ensures cell == "" ==> r == stored
  {
    if cell != "" then cell else stored
  }

  /** An update-mode integer column: an empty cell keeps the stored value,
      any other cell is converted (None when that raises). */
  function IntOr(p: Parsers, cell: string, stored: int): (r: Option<int>)
    ensures cell != "" ==> r == p.parseInt(cell)
    ensures cell == "" ==> r == Some(stored)
  {
    if cell != "" then p.parseInt(cell) else Some(stored)
  }

  /** An update-mode coordinate column: an empty cell keeps the stored
      coordinate, read back as a six-place decimal. */
  function DecOr(p: Parsers, cell: string, stored: int): (r: Option<Dec>)
    ensures cell != "" ==> r == p.parseDecimal(cell)
    ensures cell == "" ==> r == Some(StoredDecimal(stored))
  {
    if cell != "" then p.parseDecimal(cell) else Some(StoredDecimal(stored))
  }

  // ---------------------------------------------------------------------------
  // Stops (columns: Id, Name, Latitude, Longitude)
  // ---------------------------------------------------------------------------

  /** One row of `import_stops`: the conversions run outside any `try`, so a
      short row or a cell that does not convert raises; a taken Id or a field
      the form refuses only marks the row invalid. */
  function InsertStopRow(p: Parsers, s: Store, row: Row): (r: RowOutcome)
    ensures r.Raised? <==> |row| < 4 || p.parseInt(row[0]).None? || p.parseDecimal(row[2]).None? || p.parseDecimal(row[3]).None?
    ensures r.Saved? <==> (!r.Raised? && p.parseInt(row[0]).value !in s.stops &&
      CheckStop(p.parseInt(row[0]).value, row[1], p.parseDecimal(row[2]).value, p.parseDecimal(row[3]).value).Some?)
    ensures r.Saved? ==> var id := p.parseInt(row[0]).value;
      StopWritten(s, r.store, id) && id !in s.stops &&
      Some(r.store.stops[id]) == CheckStop(id, row[1], p.parseDecimal(row[2]).value, p.parseDecimal(row[3]).value)
    ensures r.Saved? && ValidStore(s) ==> ValidStore(r.store)
  {
    if |row| < 4 then Raised
    else match (p.parseInt(row[0]), p.parseDecimal(row[2]), p.parseDecimal(row[3]))
      case (Some(id), Some(lat), Some(lon)) =>
        if id in s.stops then Invalid
        else (match CheckStop(id, row[1], lat, lon)
          case None => Invalid
          case Some(st) => Saved(PutStop(s, st)))
      case _ => Raised
  }

  /** One row of `import_stops_update`: the row names a stored Stop by Id;
      every non-empty cell replaces that field, every empty cell keeps it; any
      failure marks the row invalid. */
  function UpdateStopRow(p: Parsers, s: Store, row: Row): (r: RowOutcome)
    ensures !r.Raised?
    ensures (|row| < 4 || p.parseInt(IdOf(row)).None? || p.parseInt(IdOf(row)).value !in s.stops) ==> r.Invalid?
    ensures r.Saved? <==> (|row| >= 4 && p.parseInt(row[0]).Some? && p.parseInt(row[0]).value in s.stops &&
      var was := s.stops[p.parseInt(row[0]).value];
      var lat := DecOr(p, row[2], was.lat);
      var lon := DecOr(p, row[3], was.lon);
      lat.Some? && lon.Some? && CheckStop(was.id, TextOr(row[1], was.name), lat.value, lon.value).Some?)
    ensures r.Saved? ==> var was := s.stops[p.parseInt(row[0]).value];
      StopWritten(s, r.store, was.id) && DecOr(p, row[2], was.lat).Some? && DecOr(p, row[3], was.lon).Some? &&
      Some(r.store.stops[was.id]) ==
        CheckStop(was.id, TextOr(row[1], was.name), DecOr(p, row[2], was.lat).value, DecOr(p, row[3], was.lon).value)
    ensures r.Saved? && ValidStore(s) ==> ValidStore(r.store)
  {
    if |row| < 4 then Invalid
    else match p.parseInt(row[0])
      case None => Invalid
      case Some(id) =>
        if id !in s.stops then Invalid
        else
          var was := s.stops[id];
          match (DecOr(p, row[2], was.lat), DecOr(p, row[3], was.lon))
          case (Some(lat), Some(lon)) =>
            (match CheckStop(was.id, TextOr(row[1], was.name), lat, lon)
              case None => Invalid
              case Some(st) => Saved(PutStop(s, st)))
          case _ => Invalid
  }

  // ---------------------------------------------------------------------------
  // Lines (columns: Id, Name, then any number of stop Ids)
  // ---------------------------------------------------------------------------

  /** One row of `import_lines`: every column after the name is a stop Id. */
  function InsertLineRow(p: Parsers, s: Store, row: Row): (r: RowOutcome)
    ensures r.Raised? <==> |row| < 2 || p.parseInt(row[0]).None? || ParseAll(p, row[2..]).None?
    ensures r.Saved? <==> (!r.Raised? && p.parseInt(row[0]).value !in s.lines &&
      CheckLine(s, p.parseInt(row[0]).value, row[1], ElemsOf(ParseAll(p, row[2..]).value)).Some?)
    ensures r.Saved? ==> var id := p.parseInt(row[0]).value;
      LineWritten(s, r.store, id) && id !in s.lines &&
      r.store.lines[id] == Line(id, row[1], ElemsOf(ParseAll(p, row[2..]).value))
    ensures r.Saved? && ValidStore(s) ==> ValidStore(r.store)
  {
    if |row| < 2 then Raised
    else match (p.parseInt(row[0]), ParseAll(p, row[2..]))
      case (Some(id), Some(ids)) =>
        if id in s.lines then Invalid
        else (match CheckLine(s, id, row[1], ElemsOf(ids))
          case None => Invalid
          case Some(l) => Saved(PutLine(s, l)))
      case _ => Raised
  }

  /** One row of `import_lines_update`: the listed stops are added to the
      line's stops (never removed), an empty name keeps the stored one. */
  function UpdateLineRow(p: Parsers, s: Store, row: Row): (r: RowOutcome)
    ensures !r.Raised?
    ensures r.Saved? <==> (|row| >= 2 && p.parseInt(row[0]).Some? && p.parseInt(row[0]).value in s.lines &&
      ParseAll(p, row[2..]).Some? &&
      var was := s.lines[p.parseInt(row[0]).value];
      CheckLine(s, was.id, TextOr(row[1], was.name), ElemsOf(ParseAll(p, row[2..]).value) + was.stops).Some?)
    ensures r.Saved? ==> var was := s.lines[p.parseInt(row[0]).value];
      LineWritten(s, r.store, was.id) &&
      r.store.lines[was.id] == Line(was.id, TextOr(row[1], was.name), ElemsOf(ParseAll(p, row[2..]).value) + was.stops)
    ensures r.Saved? && ValidStore(s) ==> ValidStore(r.store)
  {
    if |row| < 2 then Invalid
    else match (p.parseInt(row[0]), ParseAll(p, row[2..]))
      case (Some(id), Some(ids)) =>
        if id !in s.lines then Invalid
        else
          var was := s.lines[id];
          (match CheckLine(s, was.id, TextOr(row[1], was.name), ElemsOf(ids) + was.stops)
            case None => Invalid
            case Some(l) => Saved(PutLine(s, l)))
      case _ => Invalid
  }

  // ---------------------------------------------------------------------------
  // Vehicles (columns: Id, Name, Modelo, LinhaId)
  // ---------------------------------------------------------------------------

  /** One row of `import_vehicles`. */
  function InsertVehicleRow(p: Parsers, s: Store, row: Row): (r: RowOutcome)
    ensures r.Raised? <==> |row| < 4 || p.parseInt(row[0]).None? || p.parseInt(row[3]).None?
    ensures r.Saved? <==> (!r.Raised? && p.parseInt(row[0]).value !in s.vehicles &&
      CheckVehicle(s, p.parseInt(row[0]).value, row[1], row[2], p.parseInt(row[3]).value).Some?)
    ensures r.Saved? ==> var id := p.parseInt(row[0]).value;
      VehicleWritten(s, r.store, id) && id !in s.vehicles &&
      r.store.vehicles[id] == Vehicle(id, row[1], row[2], p.parseInt(row[3]).value)
    ensures r.Saved? && ValidStore(s) ==> ValidStore(r.store)
  {
    if |row| < 4 then Raised
    else match (p.parseInt(row[0]), p.parseInt(row[3]))
      case (Some(id), Some(line)) =>
        if id in s.vehicles then Invalid
        else (match CheckVehicle(s, id, row[1], row[2], line)
          case None => Invalid
          case Some(v) => Saved(PutVehicle(s, v)))
      case _ => Raised
  }

  /** One row of `import_vehicles_update`. */
  function UpdateVehicleRow(p: Parsers, s: Store, row: Row): (r: RowOutcome)
    ensures !r.Raised?
    ensures r.Saved? <==> (|row| >= 4 && p.parseInt(row[0]).Some? && p.parseInt(row[0]).value in s.vehicles &&
      var was := s.vehicles[p.parseInt(row[0]).value];
      var line := IntOr(p, row[3], was.line);
      line.Some? && CheckVehicle(s, was.id, TextOr(row[1], was.name), TextOr(row[2], was.model), line.value).Some?)
    ensures r.Saved? ==> var was := s.vehicles[p.parseInt(row[0]).value];
      VehicleWritten(s, r.store, was.id) && IntOr(p, row[3], was.line).Some? &&
      r.store.vehicles[was.id] == Vehicle(was.id, TextOr(row[1], was.name), TextOr(row[2], was.model), IntOr(p, row[3], was.line).value)
    ensures r.Saved? && ValidStore(s) ==> ValidStore(r.store)
  {
    if |row| < 4 then Invalid
    else match p.parseInt(row[0])
      case None => Invalid
      case Some(id) =>
        if id !in s.vehicles then Invalid
        else
          var was := s.vehicles[id];
          match IntOr(p, row[3], was.line)
          case None => Invalid
          case Some(line) =>
            (match CheckVehicle(s, was.id, TextOr(row[1], was.name), TextOr(row[2], was.model), line)
              case None => Invalid
              case Some(v) => Saved(PutVehicle(s, v)))
  }

  // ---------------------------------------------------------------------------
  // Positions (columns: VeiculoId, Latitude, Longitude)
  // ---------------------------------------------------------------------------

  /** One row of `import_positions`: the first column is the vehicle's Id, which
      is also the Position's key. */
  function InsertPositionRow(p: Parsers, s: Store, row: Row): (r: RowOutcome)
    ensures r.Raised? <==> |row| < 3 || p.parseInt(row[0]).None? || p.parseDecimal(row[1]).None? || p.parseDecimal(row[2]).None?
    ensures r.Saved? <==> (!r.Raised? && p.parseInt(row[0]).value !in s.positions &&
      CheckPosition(s, p.parseInt(row[0]).value, p.parseDecimal(row[1]).value, p.parseDecimal(row[2]).value).Some?)
    ensures r.Saved? ==> var id := p.parseInt(row[0]).value;
      PositionWritten(s, r.store, id) && id !in s.positions &&
      Some(r.store.positions[id]) == CheckPosition(s, id, p.parseDecimal(row[1]).value, p.parseDecimal(row[2]).value)
    ensures r.Saved? && ValidStore(s) ==> ValidStore(r.store)
  {
    if |row| < 3 then Raised
    else match (p.parseInt(row[0]), p.parseDecimal(row[1]), p.parseDecimal(row[2]))
      case (Some(id), Some(lat), Some(lon)) =>
        if id in s.positions then Invalid
        else (match CheckPosition(s, id, lat, lon)
          case None => Invalid
          case Some(q) => Saved(PutPosition(s, q)))
      case _ => Raised
  }

  /** One row of `import_positions_update`: the key is the parsed Id itself
      (not read back from the stored record). */
  function UpdatePositionRow(p: Parsers, s: Store, row: Row): (r: RowOutcome)
    ensures !r.Raised?
    ensures r.Saved? <==> (|row| >= 3 && p.parseInt(row[0]).Some? && p.parseInt(row[0]).value in s.positions &&
      var id := p.parseInt(row[0]).value;
      var was := s.positions[id];
      var lat := DecOr(p, row[1], was.lat);
      var lon := DecOr(p, row[2], was.lon);
      lat.Some? && lon.Some? && CheckPosition(s, id, lat.value, lon.value).Some?)
    ensures r.Saved? ==> var id := p.parseInt(row[0]).value; var was := s.positions[id];
      PositionWritten(s, r.store, id) && DecOr(p, row[1], was.lat).Some? && DecOr(p, row[2], was.lon).Some? &&
      Some(r.store.positions[id]) == CheckPosition(s, id, DecOr(p, row[1], was.lat).value, DecOr(p, row[2], was.lon).value)
    ensures r.Saved? && ValidStore(s) ==> ValidStore(r.store)
  {
    if |row| < 3 then Invalid
    else match p.parseInt(row[0])
      case None => Invalid
      case Some(id) =>
        if id !in s.positions then Invalid
        else
          var was := s.positions[id];
          match (DecOr(p, row[1], was.lat), DecOr(p, row[2], was.lon))
          case (Some(lat), Some(lon)) =>
            (match CheckPosition(s, id, lat, lon)
              case None => Invalid
              case Some(q) => Saved(PutPosition(s, q)))
          case _ => Invalid
  }

  // ---------------------------------------------------------------------------
  // The two lists of a result
  // ---------------------------------------------------------------------------

  /** The accepted and the refused ids together are exactly the handled ids:
      none lost, none repeated. */
  lemma {:induction false} PickSplits(ids: seq<string>, verdicts: seq<bool>)
    requires |ids| == |verdicts|
    ensures |Pick(ids, verdicts, true)| + |Pick(ids, verdicts, false)| == |ids|
    ensures multiset(Pick(ids, verdicts, true)) + multiset(Pick(ids, verdicts, false)) == multiset(ids)
    decreases |ids|
  {
    if ids != [] {
      PickSplits(ids[1..], verdicts[1..]);
      assert ids == [ids[0]] + ids[1..];
    }
  }

  // ---------------------------------------------------------------------------
  // The eight import views
  // ---------------------------------------------------------------------------

  const AddedF := Headers("Adicionadas:\n", "Inválidas:\n")
  const UpdatedF := Headers("Atualizadas:\n", "Inválidas:\n")
  const AddedM := Headers("Adicionados:\n", "Inválidos:\n")
  const UpdatedM := Headers("Atualizados:\n", "Inválidos:\n")

  function InsertStopStep(p: Parsers): (Store, Row) -> RowOutcome {
    (t, row) => InsertStopRow(p, t, row)
  }

  function UpdateStopStep(p: Parsers): (Store, Row) -> RowOutcome {
    (t, row) => UpdateStopRow(p, t, row)
  }

  function InsertLineStep(p: Parsers): (Store, Row) -> RowOutcome {
    (t, row) => InsertLineRow(p, t, row)
  }

  function UpdateLineStep(p: Parsers): (Store, Row) -> RowOutcome {
    (t, row) => UpdateLineRow(p, t, row)
  }

  function InsertVehicleStep(p: Parsers): (Store, Row) -> RowOutcome {
    (t, row) => InsertVehicleRow(p, t, row)
  }

  function UpdateVehicleStep(p: Parsers): (Store, Row) -> RowOutcome {
    (t, row) => UpdateVehicleRow(p, t, row)
  }

  function InsertPositionStep(p: Parsers): (Store, Row) -> RowOutcome {
    (t, row) => InsertPositionRow(p, t, row)
  }

  function UpdatePositionStep(p: Parsers): (Store, Row) -> RowOutcome {
    (t, row) => UpdatePositionRow(p, t, row)
  }

  /** `import_stops`: a row that does not convert ends the call, with the
      rows before it saved. */
  function ImportStops(p: Parsers, s: Store, auth: Option<string>, file: Option<seq<Row>>): (o: Outcome)
    ensures ValidStore(s) ==> ValidStore(o.store)
    ensures o.store.tokens == s.tokens
    ensures Authorize(s.tokens, auth, p) != Granted ==> o == Outcome(s, Refusal(Authorize(s.tokens, auth, p)))
    ensures Authorize(s.tokens, auth, p) == Granted && file.None? ==> o == Outcome(s, MissingKey)
    ensures Authorize(s.tokens, auth, p) == Granted && file.Some? ==>
      var b := RunBatch(s, file.value, InsertStopStep(p));
      o.store == b.store && (o.reply == Failed <==> b.aborted) &&
      (b.aborted ==> RunBatch(s, file.value[..|b.verdicts|], InsertStopStep(p)) == b.(aborted := false)) &&
      (!b.aborted ==> o.reply == Report(AddedF.accepted + Join(b.valid) + AddedF.rejected + Join(b.invalid)))
  {
    RunImport(p, s, auth, file, InsertStopStep(p), AddedF)
  }

  /** `import_stops_update`: every non-blank row is handled and its Id
      text lands in exactly one of the two lists. */
  function ImportStopsUpdate(p: Parsers, s: Store, auth: Option<string>, file: Option<seq<Row>>): (o: Outcome)
    ensures ValidStore(s) ==> ValidStore(o.store)
    ensures o.store.tokens == s.tokens
    ensures Authorize(s.tokens, auth, p) != Granted ==> o == Outcome(s, Refusal(Authorize(s.tokens, auth, p)))
    ensures Authorize(s.tokens, auth, p) == Granted && file.None? ==> o == Outcome(s, MissingKey)
    ensures Authorize(s.tokens, auth, p) == Granted && file.Some? ==>
      var rows := file.value;
      var b := RunBatch(s, rows, UpdateStopStep(p));
      o.store == b.store && (o.reply == Failed <==> HasBlankRow(rows)) &&
      (!HasBlankRow(rows) ==>
        |b.verdicts| == |rows| &&
        o.reply == Report(UpdatedF.accepted + Join(Pick(IdsOf(rows), b.verdicts, true)) + UpdatedF.rejected + Join(Pick(IdsOf(rows), b.verdicts, false))))
  {
    RunImport(p, s, auth, file, UpdateStopStep(p), UpdatedF)
  }

  /** `import_lines`: a row that does not convert ends the call, with the
      rows before it saved. */
  function ImportLines(p: Parsers, s: Store, auth: Option<string>, file: Option<seq<Row>>): (o: Outcome)
    ensures ValidStore(s) ==> ValidStore(o.store)
    ensures o.store.tokens == s.tokens
    ensures Authorize(s.tokens, auth, p) != Granted ==> o == Outcome(s, Refusal(Authorize(s.tokens, auth, p)))
    ensures Authorize(s.tokens, auth, p) == Granted && file.None? ==> o == Outcome(s, MissingKey)
    ensures Authorize(s.tokens, auth, p) == Granted && file.Some? ==>
      var b := RunBatch(s, file.value, InsertLineStep(p));
      o.store == b.store && (o.reply == Failed <==> b.aborted) &&
      (b.aborted ==> RunBatch(s, file.value[..|b.verdicts|], InsertLineStep(p)) == b.(aborted := false)) &&
      (!b.aborted ==> o.reply == Report(AddedF.accepted + Join(b.valid) + AddedF.rejected + Join(b.invalid)))
  {
    RunImport(p, s, auth, file, InsertLineStep(p), AddedF)
  }

  /** `import_lines_update`: every non-blank row is handled and its Id
      text lands in exactly one of the two lists. */
  function ImportLinesUpdate(p: Parsers, s: Store, auth: Option<string>, file: Option<seq<Row>>): (o: Outcome)
    ensures ValidStore(s) ==> ValidStore(o.store)
    ensures o.store.tokens == s.tokens
    ensures Authorize(s.tokens, auth, p) != Granted ==> o == Outcome(s, Refusal(Authorize(s.tokens, auth, p)))
    ensures Authorize(s.tokens, auth, p) == Granted && file.None? ==> o == Outcome(s, MissingKey)
    ensures Authorize(s.tokens, auth, p) == Granted && file.Some? ==>
      var rows := file.value;
      var b := RunBatch(s, rows, UpdateLineStep(p));
      o.store == b.store && (o.reply == Failed <==> HasBlankRow(rows)) &&
      (!HasBlankRow(rows) ==>
        |b.verdicts| == |rows| &&
        o.reply == Report(UpdatedF.accepted + Join(Pick(IdsOf(rows), b.verdicts, true)) + UpdatedF.rejected + Join(Pick(IdsOf(rows), b.verdicts, false))))
  {
    RunImport(p, s, auth, file, UpdateLineStep(p), UpdatedF)
  }

  /** `import_vehicles`: a row that does not convert ends the call, with the
      rows before it saved. */
  function ImportVehicles(p: Parsers, s: Store, auth: Option<string>, file: Option<seq<Row>>): (o: Outcome)
    ensures ValidStore(s) ==> ValidStore(o.store)
    ensures o.store.tokens == s.tokens
    ensures Authorize(s.tokens, auth, p) != Granted ==> o == Outcome(s, Refusal(Authorize(s.tokens, auth, p)))
    ensures Authorize(s.tokens, auth, p) == Granted && file.None? ==> o == Outcome(s, MissingKey)
    ensures Authorize(s.tokens, auth, p) == Granted && file.Some? ==>
      var b := RunBatch(s, file.value, InsertVehicleStep(p));
      o.store == b.store && (o.reply == Failed <==> b.aborted) &&
      (b.aborted ==> RunBatch(s, file.value[..|b.verdicts|], InsertVehicleStep(p)) == b.(aborted := false)) &&
      (!b.aborted ==> o.reply == Report(AddedM.accepted + Join(b.valid) + AddedM.rejected + Join(b.invalid)))
  {
    RunImport(p, s, auth, file, InsertVehicleStep(p), AddedM)
  }

  /** `import_vehicles_update`: every non-blank row is handled and its Id
      text lands in exactly one of the two lists. */
  function ImportVehiclesUpdate(p: Parsers, s: Store, auth: Option<string>, file: Option<seq<Row>>): (o: Outcome)
    ensures ValidStore(s) ==> ValidStore(o.store)
    ensures o.store.tokens == s.tokens
    ensures Authorize(s.tokens, auth, p) != Granted ==> o == Outcome(s, Refusal(Authorize(s.tokens, auth, p)))
    ensures Authorize(s.tokens, auth, p) == Granted && file.None? ==> o == Outcome(s, MissingKey)
    ensures Authorize(s.tokens, auth, p) == Granted && file.Some? ==>
      var rows := file.value;
      var b := RunBatch(s, rows, UpdateVehicleStep(p));
      o.store == b.store && (o.reply == Failed <==> HasBlankRow(rows)) &&
      (!HasBlankRow(rows) ==>
        |b.verdicts| == |rows| &&
        o.reply == Report(UpdatedM.accepted + Join(Pick(IdsOf(rows), b.verdicts, true)) + UpdatedM.rejected + Join(Pick(IdsOf(rows), b.verdicts, false))))
  {
    RunImport(p, s, auth, file, UpdateVehicleStep(p), UpdatedM)
  }

  /** `import_positions`: a row that does not convert ends the call, with the
      rows before it saved. */
  function ImportPositions(p: Parsers, s: Store, auth: Option<string>, file: Option<seq<Row>>): (o: Outcome)
    ensures ValidStore(s) ==> ValidStore(o.store)
    ensures o.store.tokens == s.tokens
    ensures Authorize(s.tokens, auth, p) != Granted ==> o == Outcome(s, Refusal(Authorize(s.tokens, auth, p)))
    ensures Authorize(s.tokens, auth, p) == Granted && file.None? ==> o == Outcome(s, MissingKey)
    ensures Authorize(s.tokens, auth, p) == Granted && file.Some? ==>
      var b := RunBatch(s, file.value, InsertPositionStep(p));
      o.store == b.store && (o.reply == Failed <==> b.aborted) &&
      (b.aborted ==> RunBatch(s, file.value[..|b.verdicts|], InsertPositionStep(p)) == b.(aborted := false)) &&
      (!b.aborted ==> o.reply == Report(AddedF.accepted + Join(b.valid) + AddedF.rejected + Join(b.invalid)))
  {
    RunImport(p, s, auth, file, InsertPositionStep(p), AddedF)
  }

  /** `import_positions_update`: every non-blank row is handled and its Id
      text lands in exactly one of the two lists. */
  function ImportPositionsUpdate(p: Parsers, s: Store, auth: Option<string>, file: Option<seq<Row>>): (o: Outcome)
    ensures ValidStore(s) ==> ValidStore(o.store)
    ensures o.store.tokens == s.tokens
    ensures Authorize(s.tokens, auth, p) != Granted ==> o == Outcome(s, Refusal(Authorize(s.tokens, auth, p)))
    ensures Authorize(s.tokens, auth, p) == Granted && file.None? ==> o == Outcome(s, MissingKey)
    ensures Authorize(s.tokens, auth, p) == Granted && file.Some? ==>
      var rows := file.value;
      var b := RunBatch(s, rows, UpdatePositionStep(p));
      o.store == b.store && (o.reply == Failed <==> HasBlankRow(rows)) &&
      (!HasBlankRow(rows) ==>
        |b.verdicts| == |rows| &&
        o.reply == Report(AddedF.accepted + Join(Pick(IdsOf(rows), b.verdicts, true)) + AddedF.rejected + Join(Pick(IdsOf(rows), b.verdicts, false))))
  {
    RunImport(p, s, auth, file, UpdatePositionStep(p), AddedF)
  }

  /** The fold, unrolled: the verdict on row k is whether that row's step
      saves against the store the rows before it left. */
  lemma {:induction false} VerdictIsStep(s: Store, rows: seq<Row>, step: (Store, Row) -> RowOutcome, k: nat)
    requires k < |RunBatch(s, rows, step).verdicts|
    ensures |rows[k]| > 0
    ensures RunBatch(s, rows, step).verdicts[k] == step(RunBatch(s, rows[..k], step).store, rows[k]).Saved?
    decreases |rows|
  {
    assert rows != [] && |rows[0]| > 0;
    var o := step(s, rows[0]);
    assert !o.Raised?;
    var t := if o.Saved? then o.store else s;
    assert RunBatch(s, rows, step).verdicts == [o.Saved?] + RunBatch(t, rows[1..], step).verdicts;
    if k > 0 {
      var pre := rows[..k];
      assert pre[0] == rows[0] && pre[1..] == rows[1..][..k - 1];
      assert RunBatch(s, pre, step).store == RunBatch(t, pre[1..], step).store;
      VerdictIsStep(t, rows[1..], step, k - 1);
    } else {
      assert rows[..0] == [];
    }
  }

  /** Update-mode line imports only ever add stops: a line's stops after the
      call include all its stops before. */
  lemma {:induction false} LineUpdatesNeverUnlink(p: Parsers, s: Store, rows: seq<Row>)
    requires ValidStore(s)
    ensures var t := RunBatch(s, rows, UpdateLineStep(p)).store;
      s.lines.Keys <= t.lines.Keys && forall k :: k in s.lines ==> s.lines[k].stops <= t.lines[k].stops
    decreases |rows|
  {
    if rows != [] && |rows[0]| > 0 {
      match UpdateLineRow(p, s, rows[0])
      case Invalid =>
        LineUpdatesNeverUnlink(p, s, rows[1..]);
      case Saved(t) =>
        LineUpdatesNeverUnlink(p, t, rows[1..]);
    }
  }
}
