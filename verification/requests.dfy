/** What every mutating view shares: the parsers it applies to posted text, the
    token gate it passes first, and the kinds of reply it gives. */
module Requests {
  import opened Basics
  import Models

  /** Python's `int(...)` and `decimal.Decimal(...)` applied to one piece of
      posted or uploaded text (None when the conversion raises), and the
      integer conversion of a form's IntegerField, which also accepts a
      trailing ".0". Their exact grammar (signs, blanks, underscores,
      exponents) is not modelled. */
  datatype Parsers = Parsers(
    parseInt: string -> Option<int>,
    parseDecimal: string -> Option<Models.Dec>,
    parseFormInt: string -> Option<int>)

  /** A POST body: its single-valued fields by name, and the values of the
      repeatable `Paradas` field in order (`getlist`, empty when absent). */
  datatype Request = Request(fields: map<string, string>, stopList: seq<string>)

  /** `request.POST[key]`, None when the key is absent. */
  function Field(req: Request, key: string): (r: Option<string>)
    ensures r.Some? <==> key in req.fields
    ensures r.Some? ==> r.value == req.fields[key]
  {
    if key in req.fields then Some(req.fields[key]) else None
  }

  /** `request.POST.get(key, stored)`: a posted value replaces the stored one
      even when it is empty. */
  function Posted(req: Request, key: string, stored: string): (r: string)
    ensures key in req.fields ==> r == req.fields[key]
    ensures key !in req.fields ==> r == stored
  {
    if key in req.fields then req.fields[key] else stored
  }

  /** The outcome of the token gate. */
  datatype Access =
    | NoKey        // the request carries no `auth` field
    | Malformed    // the `auth` text is not an integer: the token lookup raises
    | Unknown      // no Chave row holds this token
    | Granted

  /** What a view answers. The Portuguese wording of each message is not modelled. */
  datatype Reply =
    | MissingKey                // KeyError: no `auth` field (or no uploaded file)
    | NotValidated              // the token is not registered
    | NotFound                  // no entity with the path id
    | IdChangeRefused           // the posted Id differs from the path id
    | FormRejected              // the form did not validate; nothing saved
    | Done                      // the change was saved
    | Failed                    // any other exception; its message is the reply
    | Unlinked(removedAny: bool) // stops were unlinked from a line (or none were named)
    | NotLinked                 // a named stop is not linked to the line
    | Report(text: string)      // the result text of a CSV import

  /** The store after a call and the reply it gives. */
  datatype Outcome = Outcome(store: Models.Store, reply: Reply)

  /** The token gate: the `auth` field must be present, must read as an
      integer, and must be one of the stored token values. */
  function Authorize(tokens: seq<int>, auth: Option<string>, p: Parsers): (a: Access)
    ensures a == NoKey <==> auth.None?
    ensures a == Granted <==> auth.Some? && p.parseInt(auth.value).Some? && p.parseInt(auth.value).value in tokens
    ensures a == Unknown <==> auth.Some? && p.parseInt(auth.value).Some? && p.parseInt(auth.value).value !in tokens
  {
    match auth
    case None => NoKey
    case Some(text) =>
      match p.parseInt(text)
      case None => Malformed
      case Some(t) => if t in tokens then Granted else Unknown
  }

  /** The reply a view gives when the gate does not grant access: an error
      reply, never one that reports a saved change, an unlink or a report. */
  function Refusal(a: Access): (r: Reply)
    requires a != Granted
    ensures r != Done && r != FormRejected && !r.Unlinked? && !r.Report?
    ensures r in {MissingKey, NotValidated, Failed}
  {
    match a
    case NoKey => MissingKey
    case Malformed => Failed
    case Unknown => NotValidated
  }

  /** A caller can tell from the refusal why it was refused: each cause has
      its own reply. */
  lemma RefusalTellsCause(a: Access, b: Access)
    requires a != Granted && b != Granted
    ensures Refusal(a) == Refusal(b) <==> a == b
  {
  }

  /** Tokens carry no uniqueness constraint: registering a value twice, or in
      another order, changes no decision of the gate. */
  lemma GateSeesOnlyMembership(t1: seq<int>, t2: seq<int>, auth: Option<string>, p: Parsers)
    requires forall x :: x in t1 <==> x in t2
    ensures Authorize(t1, auth, p) == Authorize(t2, auth, p)
  {
  }

  /** `[int(x) for x in xs]`: None as soon as one text does not read as an integer. */
  function ParseAll(p: Parsers, xs: seq<string>): (r: Option<seq<int>>)
    ensures r.Some? <==> forall k :: 0 <= k < |xs| ==> p.parseInt(xs[k]).Some?
    ensures r.Some? ==> |r.value| == |xs| && forall k :: 0 <= k < |xs| ==> p.parseInt(xs[k]) == Some(r.value[k])
    decreases |xs|
  {
    if xs == [] then Some([])
    else match (p.parseInt(xs[0]), ParseAll(p, xs[1..]))
      case (Some(x), Some(rest)) => Some([x] + rest)
      case _ =>
        assert forall k :: 1 <= k < |xs| ==> xs[k] == xs[1..][k - 1];
        None
  }

  /** Converting a non-empty list converts its head, then the rest. */
  lemma ParseAllCons(p: Parsers, xs: seq<string>)
    requires xs != []
    ensures ParseAll(p, xs).Some? <==> p.parseInt(xs[0]).Some? && ParseAll(p, xs[1..]).Some?
    ensures ParseAll(p, xs).Some? ==> ParseAll(p, xs).value == [p.parseInt(xs[0]).value] + ParseAll(p, xs[1..]).value
  {
  }
}
