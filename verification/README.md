# Transit registry: a Dafny model

This project models the core of a small Django service that keeps a registry of
bus stops (Parada), lines (Linha), vehicles (Veiculo), vehicle positions
(PosicaoVeiculo) and API tokens (Chave). It covers three pieces:

- **The nearby-stop search** (`nearby_stops`). One pass over the stops applies a
  three-branch selection rule. A stable sort by distance follows, then a cut to
  ten entries.
- **The CSV imports.** There are four record kinds and two modes each:
  - insert mode (`import_*`), where a conversion error aborts the rest of the
    file;
  - update mode (`import_*_update`), where empty cells keep stored values and
    every per-row failure marks the row invalid, except a blank row, which ends
    the call.
- **The single-record views.** These are `new_*`, `update_*` and `delete_*`, and
  `remove_stop_from_line`. They work over a store of records keyed by primary
  key, with the field constraints, foreign keys and cascade rules of the model
  declarations.

Layout:

| file | module | contents |
|---|---|---|
| basics.dfy | Basics | Option, powers of ten, the signed 64-bit range of every Id column, the decimal text `str(n)` of an integer |
| models.dfy | Models | records, parsed decimals and micro-degree coordinates, form validation, the store and its invariant, saving and cascade deletes |
| requests.dfy | Requests | parsers as parameters, the POST body, the token gate, replies |
| imports.dfy | Imports | the generic row fold, the eight per-row steps, the result text, the eight import views |
| crud.dfy | Crud | create / edit / delete views, unlinking stops from a line (as written and corrected) |
| nearby.dfy | Nearby | the scan, a loop-free description of its result, the stable sort, the report |

Modelling choices:

- **Coordinates.** They are DecimalFields with six decimal places and range
  validators, so a validated coordinate is stored exactly as whole
  micro-degrees.
- **Parsed decimals.** A parsed `Decimal` keeps its exponent (`Dec`), because
  Django's decimal validator counts places from the exponent: `1.5000000` has
  seven places and is refused.
- **Conversions.** Python's `int()` and `Decimal()`, and the form's integer
  conversion, are parameters (`Parsers`): total functions into `Option`.
- **Distances.** Each visited stop arrives with its distance already computed.
- **Replies.** A reply is a constructor (`Reply`), not its Portuguese wording.
  Any exception that reaches a view's generic handler is `Failed`.
- **Code over comments.** Where a view's comment and its code disagree, the
  model follows the code:
  - the exactly-3 km anchor survives, although the comment promises only stops
    under 3 km;
  - unlinking stops from a line stops at the first unlinked id, although the
    comment says such ids are ignored.

## Model

| member | source | states |
|---|---|---|
| Models.ToMicro | Teste/CRUD/models.py:8-9 | A coordinate validates only if it is finite, has at most six decimal places and lies within ±bound degrees. Its micro-degree value is then within range, and at exactly six places it is the coefficient itself. |
| Models.StoredDecimal | Teste/CRUD/models.py:36-37 | A stored coordinate, read back as a six-place decimal, validates again to the same micro-degree value. |
| Models.TrailingZeroWithinPlaces | Teste/CRUD/models.py:8 | Writing a coordinate with one more trailing zero, while staying within six places, does not change its validated value. |
| Models.CheckStop | Teste/CRUD/models.py:4-9 | A Parada form accepts exactly a 64-bit Id, a name of 1..100 characters and in-range six-place coordinates, and yields a record with those values. |
| Models.CheckLine | Teste/CRUD/models.py:15-19 | A Linha form accepts exactly a 64-bit Id, a 1..100-character name and any set of existing stop Ids, the empty set included. |
| Basics.IntTextInjective | Teste/CRUD/models.py:19 | Distinct ids have distinct texts `str(pk)`, so a posted stop text names at most one stored stop. |
| Models.ChosenStops | Teste/CRUD/forms.py:9-12 | The line form's stop field accepts a list exactly when every value is the text `str(pk)` of a stored stop. It chooses exactly the stored stops whose text was posted, and never a stop that is not stored. |
| Models.ChosenStopsOfTexts | Teste/CRUD/forms.py:9-12 | Posting the texts of stored stops chooses exactly those stops. |
| Models.PaddedStopRefused | Teste/CRUD/forms.py:9-12 | With stop 5 stored, the value "05" is refused, although `int()` would read it as 5. |
| Models.CheckVehicle | Teste/CRUD/models.py:24-29 | A Veiculo form accepts exactly a 64-bit Id, a 1..100-character name, a 1..50-character model and the Id of an existing line. |
| Models.CheckPosition | Teste/CRUD/models.py:34-38 | A PosicaoVeiculo form accepts exactly the Id of an existing vehicle and in-range six-place coordinates. |
| Models.PutStop | Teste/CRUD/models.py:4-9 | Saving a valid stop keeps the store invariant: one record per key, each key its record's Id. |
| Models.PutLine | Teste/CRUD/models.py:15-19 | Saving a valid line whose stops exist keeps the store invariant. |
| Models.PutVehicle | Teste/CRUD/models.py:24-29 | Saving a valid vehicle whose line exists keeps the store invariant. |
| Models.PutPosition | Teste/CRUD/models.py:34-38 | Saving a position of an existing vehicle keeps the store invariant, with at most one position per vehicle. |
| Models.DeleteStop | Teste/CRUD/models.py:19 | Deleting a stop unlinks it from every line, deletes no line, touches no vehicle or position, and keeps the invariant. |
| Models.DeleteLine | Teste/CRUD/models.py:29 | Deleting a line deletes exactly the vehicles on it (CASCADE) and exactly their positions (CASCADE). Other lines and all stops are unchanged, and the invariant holds. |
| Models.DeleteVehicle | Teste/CRUD/models.py:38 | Deleting a vehicle deletes its position (CASCADE) and nothing else, and keeps the invariant. |
| Models.DeletePosition | Teste/CRUD/models.py:34-38 | Deleting a position removes that key only and keeps the invariant. |
| Models.DeleteLineLeavesNoDangling | Teste/CRUD/models.py:29-38 | After a line is deleted, no vehicle refers to it and every remaining position has its vehicle. |
| Requests.Authorize | Teste/CRUD/views.py:83-85 | The gate grants access exactly when an `auth` field is present, reads as an integer and is a stored token. It reports an absent field and an unknown token apart. |
| Requests.Refusal | Teste/CRUD/views.py:83-104 | A call the gate refuses gets an error reply: the missing-key, not-validated or generic exception reply. It never reports a saved change, an unlink or an import report. |
| Requests.RefusalTellsCause | Teste/CRUD/views.py:83-104 | The three refusal causes (no token field, an unknown token, a token that is not an integer) get three different replies. |
| Requests.GateSeesOnlyMembership | Teste/CRUD/models.py:43-45 | Two token tables with the same members (duplicates and order aside) give the same gate decision for every request. |
| Requests.ParseAll | Teste/CRUD/views.py:363-364 | Converting the trailing stop columns succeeds exactly when every column reads as an integer, and then gives each column's value in order. |
| Imports.RunBatch | Teste/CRUD/views.py:136-148 | The row loop stops only at a blank row or a row that raises. Every handled row's verbatim Id text goes to exactly one of the two lists, by its verdict and in input order. |
| Imports.AbortKeepsPrefix | Teste/CRUD/views.py:136-152 | A batch ended by a raising row has the same store and lists as a clean run of the rows before it: those rows stay saved. |
| Imports.NoRaiseAbortsOnlyAtBlank | Teste/CRUD/views.py:166-191 | When no row can raise, the batch ends early exactly when the file holds a blank row. Otherwise every row is listed once. |
| Imports.BatchKeepsValid | Teste/CRUD/views.py:142-147 | When each saved row keeps the store invariant and the token table, so does the whole batch. |
| Imports.VerdictIsStep | Teste/CRUD/views.py:166-190 | Row k is listed as valid exactly when its own step saves against the store the rows before it left. |
| Imports.PickSplits | Teste/CRUD/views.py:185-190 | The valid and invalid lists together are the handled Id texts as a multiset: none is lost and none repeated. |
| Imports.AccumulateThenDrop | Teste/CRUD/views.py:145-148 | Appending each id plus a newline and then dropping the last character gives the ids joined by newlines. |
| Imports.Render | Teste/CRUD/views.py:148 | The result text is the first heading, the valid ids newline-joined, the second heading, then the invalid ids newline-joined. No newline precedes the second heading. |
| Imports.RunImport | Teste/CRUD/views.py:124-152 | The gate runs first and then the file is read; a raising row turns the reply into the exception and keeps earlier saves. A row that cannot raise only ends the batch at a blank row. |
| Imports.InsertStopRow | Teste/CRUD/views.py:137-147 | A row raises exactly when it is short or its Id or a coordinate does not convert. It saves exactly when the Id is new and the form accepts it, writing only that stop. |
| Imports.UpdateStopRow | Teste/CRUD/views.py:167-190 | A row never raises. It saves exactly when it names a stored stop and the merged record validates: each non-empty cell replaces its field, each empty one keeps the stored value. The key is the stored record's Id. |
| Imports.InsertLineRow | Teste/CRUD/views.py:359-370 | A row raises exactly when it is short or a cell does not convert. It saves exactly when the Id is new and the stop set exists, writing only that line. |
| Imports.UpdateLineRow | Teste/CRUD/views.py:390-409 | A row never raises. A saved line's stops are the row's stop Ids together with all its old stops, and an empty name cell keeps the name. |
| Imports.LineUpdatesNeverUnlink | Teste/CRUD/views.py:398-401 | Over a whole update-mode line import, every line keeps every stop it had. |
| Imports.InsertVehicleRow | Teste/CRUD/views.py:523-533 | A row raises exactly when it is short or its Id or LinhaId does not convert. It saves exactly when the Id is new and the form accepts it. |
| Imports.UpdateVehicleRow | Teste/CRUD/views.py:553-576 | A row never raises. Non-empty cells replace the name, model and line, and empty cells keep them. A line cell that does not convert marks the row invalid. |
| Imports.InsertPositionRow | Teste/CRUD/views.py:686-695 | A row raises exactly when it is short or a column does not convert. It saves exactly when the vehicle has no position yet and the form accepts it. |
| Imports.UpdatePositionRow | Teste/CRUD/views.py:715-734 | A row never raises. The key is the parsed row Id, and empty coordinate cells keep the stored coordinates. |
| Imports.ImportStops | Teste/CRUD/views.py:124-152 | The gate runs first and the file must be present. A raising row ends the call with earlier rows saved, otherwise the reply is the "Adicionadas"/"Inválidas" text. The invariant holds. |
| Imports.ImportStopsUpdate | Teste/CRUD/views.py:154-195 | Without a blank row, every row is handled and listed once under "Atualizadas"/"Inválidas". A blank row ends the call. The invariant holds. |
| Imports.ImportLines | Teste/CRUD/views.py:346-375 | The same contract as ImportStops, for lines. |
| Imports.ImportLinesUpdate | Teste/CRUD/views.py:377-414 | The same contract as ImportStopsUpdate, for lines. |
| Imports.ImportVehicles | Teste/CRUD/views.py:510-538 | The same contract as ImportStops, under the "Adicionados"/"Inválidos" headings. |
| Imports.ImportVehiclesUpdate | Teste/CRUD/views.py:540-581 | The same contract as ImportStopsUpdate, under the "Atualizados"/"Inválidos" headings. |
| Imports.ImportPositions | Teste/CRUD/views.py:673-700 | The same contract as ImportStops, for positions. |
| Imports.ImportPositionsUpdate | Teste/CRUD/views.py:702-739 | The same contract as ImportStopsUpdate, for positions, under the "Adicionadas"/"Inválidas" headings the code uses. |
| Crud.NewStopView | Teste/CRUD/views.py:53-73 | The gate runs before the form. The stop is saved exactly when all four fields are posted, convert, the Id is new and the form accepts them. Otherwise nothing changes. |
| Crud.NewLineView | Teste/CRUD/views.py:244-263 | The gate runs before the form. The line is saved exactly when every posted stop value is the text of a stored stop's id, the Id is new and 64-bit and the name is valid. An empty list is allowed. The saved line has exactly the named stops. |
| Crud.NewVehicleView | Teste/CRUD/views.py:441-460 | The gate runs before the form. The vehicle is saved exactly when its Id is new and its LinhaId names a stored line. |
| Crud.NewPositionView | Teste/CRUD/views.py:608-627 | The gate runs before the form. The position is saved exactly when its vehicle exists and has no position yet. |
| Crud.UpdateStopView | Teste/CRUD/views.py:76-104 | Checked in order: the gate, then the lookup, then conversions. A posted Id other than the path id is refused with the store unchanged. Absent fields keep stored values; only this stop is written. |
| Crud.UpdateLineView | Teste/CRUD/views.py:265-297 | The same order as UpdateStopView. Each posted stop value must be the text of a stored stop's id. The saved stops are the named stops together with all old stops. |
| Crud.UpdateVehicleView | Teste/CRUD/views.py:462-490 | The same order as UpdateStopView. A LinhaId that does not convert or names no line is a form error. |
| Crud.UpdatePositionView | Teste/CRUD/views.py:629-653 | The gate, then the lookup; there is no Id check. Absent coordinates keep stored values. |
| Crud.DeleteStopView | Teste/CRUD/views.py:107-122 | A missing stop is reported before the token is read. With access granted, the stop is deleted and unlinked from every line. |
| Crud.DeleteLineView | Teste/CRUD/views.py:329-345 | A missing line is reported before the token is read. With access granted, the line is deleted with its vehicles and their positions. |
| Crud.DeleteVehicleView | Teste/CRUD/views.py:493-509 | A missing vehicle is reported before the token is read. With access granted, the vehicle is deleted with its position. |
| Crud.DeletePositionView | Teste/CRUD/views.py:656-671 | As written: a missing position is reported first. A granted call fails before deleting, so the store never changes. |
| Crud.DeletePositionViewFixed | Teste/CRUD/views.py:656-671 | As intended: with access granted the position is removed, and only it. |
| Crud.DeletePositionDiffers | Teste/CRUD/views.py:659-663 | The two versions agree everywhere except a granted delete of an existing position, which only the corrected one performs. |
| Crud.UnlinkEach | Teste/CRUD/views.py:310-320 | As written, the loop completes exactly when every posted id converts and is still linked in its turn; it then removes exactly those ids. Otherwise it stops at the first failing text. The ids before that text are removed and stay removed. The reply is the exception reply if the text does not convert, and the not-linked reply if its id is not linked (any more). It only ever removes stops that were posted. |
| Crud.UnlinkEachFixed | Teste/CRUD/views.py:300-320 | As intended: when every posted id converts, the linked ones are removed and the rest ignored. "Removed any" is true exactly when some posted id was linked. |
| Crud.UnlinkAgreesWhenAllLinked | Teste/CRUD/views.py:310-320 | When every posted id is linked in its turn, the loop as written and the corrected loop give the same result. |
| Crud.UnlinkStopsAtFirstUnlinked | Teste/CRUD/views.py:300-321 | For stops {1, 2} with "3" then "1" posted, the loop as written stops at 3 and keeps 1 linked; the corrected loop unlinks 1. |
| Crud.RemoveStopsView | Teste/CRUD/views.py:300-327 | The gate runs first. A missing line ends in the generic exception reply. Only this line's stops shrink, and it succeeds exactly when every posted id is linked in its turn. On an early stop, the line keeps its stops less the ids before the failing text, and the reply names why that text failed. |
| Crud.UnlinkKeepsEarlierRemovals | Teste/CRUD/views.py:310-320 | With stops {1, 2} linked and "1", "3", "abc", "2" posted, stop 1 is unlinked, the loop stops at 3 with the not-linked reply, and stop 2 stays linked. |
| Crud.RemoveStopsViewFixed | Teste/CRUD/views.py:300-327 | The corrected view: the line loses exactly the posted ids that were linked. |
| Crud.NewStopThenDelete | Teste/CRUD/views.py:53-122 | Creating a stop and deleting it with the same token restores the store. |
| Crud.NewLineThenDelete | Teste/CRUD/views.py:244-345 | Creating a line and deleting it restores the store: a new line has no vehicles to cascade. |
| Crud.NewVehicleThenDelete | Teste/CRUD/views.py:441-509 | Creating a vehicle and deleting it restores the store: a new vehicle has no position. |
| Crud.NewPositionThenDelete | Teste/CRUD/views.py:608-671 | Creating a position and deleting it restores the store under the corrected delete. The delete as written leaves the position in place. |
| Crud.UntouchedStopUpdate | Teste/CRUD/views.py:86-96 | An edit that posts only the token rewrites the stop with its stored values: the call succeeds and the store is unchanged. |
| Crud.UntouchedLineUpdate | Teste/CRUD/views.py:276-289 | The same as UntouchedStopUpdate, for a line. |
| Crud.UntouchedVehicleUpdate | Teste/CRUD/views.py:472-482 | The same as UntouchedStopUpdate, for a vehicle. |
| Crud.UntouchedPositionUpdate | Teste/CRUD/views.py:639-645 | The same as UntouchedStopUpdate, for a position. |
| Nearby.Step | Teste/CRUD/views.py:753-762 | One iteration either keeps the list, appends the stop, or starts it with the stop. Over a lone anchor farther than 3 km, exactly one candidate remains. |
| Nearby.Scan | Teste/CRUD/views.py:750-762 | A non-empty stop list never gives an empty candidate list, and an empty one gives none. |
| Nearby.ScanMembers | Teste/CRUD/views.py:750-762 | Every candidate is a visited stop. |
| Nearby.CollectNearby | Teste/CRUD/views.py:748-762 | The view's loop computes the scan, and `nearby_size` always equals the list's length. |
| Nearby.FirstMin | Teste/CRUD/views.py:742-744 | The earliest position holding the minimum distance. |
| Nearby.NearMembers | Teste/CRUD/views.py:760-762 | The reference list of stops under 3 km holds exactly the visited stops closer than 3 km. |
| Nearby.ScanIsExpected | Teste/CRUD/views.py:750-762 | The scan equals a loop-free description: every stop under 3 km in visiting order, preceded by the earliest nearest stop seen before the first of them. That anchor is kept when no stop is under 3 km, or when it lies at exactly 3 km. |
| Nearby.NearestOnly | Teste/CRUD/views.py:742-762 | If no stop is under 3 km, the scan keeps exactly one stop: the earliest visited among those at minimum distance. |
| Nearby.WithinRadius | Teste/CRUD/views.py:742-762 | If some stop is under 3 km, every such stop is a candidate and no candidate is farther than 3 km. Only the first candidate can lie at exactly 3 km. |
| Nearby.AnchorAtRadiusSurvives | Teste/CRUD/views.py:753-762 | A first stop at exactly 3 km stays in the result beside a closer stop. |
| Nearby.Insert | Teste/CRUD/utility.py:13-15 | Inserting by distance adds exactly one element and keeps a closest-first list sorted. |
| Nearby.SortByDist | Teste/CRUD/views.py:763 | The sort by distance is a permutation of the candidates, in ascending order. |
| Nearby.SortStable | Teste/CRUD/views.py:763 | The sort is stable: stops at equal distance keep their visiting order. |
| Nearby.ShownCount | Teste/CRUD/views.py:765-772 | The view prints all candidates when there are fewer than ten, else exactly ten. |
| Nearby.NearbyStops | Teste/CRUD/views.py:741-774 | The report is the first min(count, 10) entries of the stable sort of the scan's candidates. So it is sorted by distance, takes each candidate at most as often as the scan holds it, and is empty exactly when there are no stops. |
| Nearby.NearbyWithinRadius | Teste/CRUD/views.py:741-772 | When some stop is under 3 km, no reported stop is farther than 3 km, and only the scan's first candidate can lie exactly at 3 km. |
| Nearby.NearbyShowsClosest | Teste/CRUD/views.py:741-774 | A stop under 3 km missing from the report is missing only because ten stops no farther than it are shown. |
| Nearby.NearbyReportsNearest | Teste/CRUD/views.py:741-744 | If no stop is under 3 km, the report is the single nearest stop, the earliest visited among ties. |
| Nearby.NearAndFarPair | Teste/CRUD/views.py:750-772 | With stops at 1 km and 5 km, in either order, only the 1 km stop is reported. |

## Left out

- **Haversine distance** (`distance` in Teste/CRUD/utility.py). It is
  floating-point trigonometry, so each visited stop carries its distance as an
  input.
- **Distance text.** The truncated distance text (`str(dist)[:7]`) and the
  report's header line are float-to-string rendering. `NearbyStops` yields the
  entries that are printed.
- **CSV and request parsing.** The CSV tokenising and UTF-8 decoding of the
  uploaded file are I/O: a file is a sequence of rows of strings. Likewise,
  reading the query parameters `lat` and `long` is left out.
- **Conversion grammar.** The exact grammar of Python's `int()` and `Decimal()`,
  and of the form's integer conversion, is a parameter. The model fixes only
  what each conversion yields. The line form's stop field does not use these
  conversions: it matches the text `str(pk)` exactly (`Models.ChosenStops`).
- **Form clean-ups.** The form's whitespace stripping of text fields and its
  rejection of NUL characters are left out: a name is valid when it has 1 to 100
  characters.
- **Digit counts.** The `max_digits` limits of the coordinate fields are not
  checked separately. They are implied by the range validators together with six
  decimal places.
- **HTTP plumbing.** The HTTP method checks, `csrf_exempt`, reply wording and
  the listing and `show_*` views are left out. Every modelled call is a POST
  (GET for the search).
- **Unreachable handler.** The `IntegrityError` handler of `new_stop` cannot be
  reached, because the form's uniqueness check refuses a taken Id first.
- **Transactions and concurrency.** There is no concurrency; each save or unlink
  is applied as soon as the code performs it, as under autocommit.
- **forms.py.** Teste/CRUD/forms.py only lists fields; the `Check*` functions
  and `ChosenStops` state what its forms accept.
- Requests.Authorize: a token value outside the 64-bit range is treated like
  any other unknown integer. The database's overflow error for such a value is
  not modelled.

## Findings

| source | as written | input that shows it | evidently intended | confidence | as-written member | corrected member |
|---|---|---|---|---|---|---|
| Teste/CRUD/views.py:662 | The success message reads `position.id`, but the model's primary key is `VeiculoId` and it has no `id` attribute. The view raises before `position.delete()`, so a position is never deleted. | A stored position for vehicle 7, a registered token, a POST to delete position 7 | The position is removed and the success message is built from its key | medium, not executed | Crud.DeletePositionView | Crud.DeletePositionViewFixed |
| Teste/CRUD/views.py:313 | `line.Paradas.get(pk=i)` raises for an id not linked to the line, which ends the loop. The view's comment says such ids are ignored; unlinks already done stay, and later ids are never removed. | A line linked to stops {1, 2} with `Paradas` = "3", "1" | Stop 3 is skipped and stop 1 is unlinked | high, not executed | Crud.UnlinkEach | Crud.UnlinkEachFixed |
