/** `POST /api/generate` (app/api/generate/route.ts): checks the request body
    in a fixed order, then builds the PDF from the contract text and the
    selected clauses. The request body is given already decoded; its
    timestamp and the renderer are parameters. */
module GenerateRoute {
  import opened Types
  import opened Strings
  import opened Http
  import opened PdfBuilder

  /** The value of `selectedClauses`: absent (or `null`), some value that is
      not an object, or an object with possibly absent fields. */
  datatype ClausesValue =
    | NoClauses
    | NotAnObject
    | ClauseObject(payment: Option<string>, delivery: Option<string>, penalty: Option<string>)

  /** The request: a body that is not JSON, or the two fields read from it. */
  datatype GenerateRequest =
    | Malformed
    | Body(contractText: Option<string>, selectedClauses: ClausesValue)

  /** `!value` for a string field: absent or empty. */
  predicate Falsy(value: Option<string>)
  {
    value.None? || value.value == ""
  }

  function FieldValue(clauses: ClausesValue, f: ClauseField): Option<string>
    requires clauses.ClauseObject?
  {
    match f
    case Payment => clauses.payment
    case Delivery => clauses.delivery
    case Penalty => clauses.penalty
  }

  /** Position of a field in the order every list of fields follows. */
  function Rank(f: ClauseField): nat
  {
    match f
    case Payment => 0
    case Delivery => 1
    case Penalty => 2
  }

  /** Listed in the order payment, delivery, penalty, without repetition. */
  predicate Ranked(fields: seq<ClauseField>)
  {
    forall i, j :: 0 <= i < j < |fields| ==> Rank(fields[i]) < Rank(fields[j])
  }

  lemma HeadRanksFirst(fields: seq<ClauseField>, x: ClauseField)
    requires Ranked(fields) && |fields| >= 1 && x in fields[1..]
    ensures Rank(fields[0]) < Rank(x)
  {
    var k :| 0 <= k < |fields| - 1 && fields[1..][k] == x;
    assert fields[k + 1] == x;
  }

  /** `fields.filter(field => !selectedClauses[field])`: exactly the fields
      whose selection is absent or empty, in the order of `fields`. */
  function MissingIn(fields: seq<ClauseField>, clauses: ClausesValue): (r: seq<ClauseField>)
    requires clauses.ClauseObject?
    ensures forall f :: f in r <==> f in fields && Falsy(FieldValue(clauses, f))
    ensures |r| <= |fields|
    ensures Ranked(fields) ==> Ranked(r)
  {
    if fields == [] then []
    else
      var rest := MissingIn(fields[1..], clauses);
      assert Ranked(fields) ==> Ranked(fields[1..]) && forall x :: x in rest ==> Rank(fields[0]) < Rank(x) by {
        if Ranked(fields) {
          forall x | x in rest ensures Rank(fields[0]) < Rank(x) {
            HeadRanksFirst(fields, x);
          }
        }
      }
      if Falsy(FieldValue(clauses, fields[0])) then [fields[0]] + rest else rest
  }

  /** The missing fields, in the order payment, delivery, penalty. */
  function MissingFields(clauses: ClausesValue): seq<ClauseField>
    requires clauses.ClauseObject?
  {
    MissingIn(AllFields, clauses)
  }

  /** The error listing the missing fields. */
  function MissingMessage(missing: seq<ClauseField>): string
  {
    "Missing selected clauses: " + Join(seq(|missing|, i requires 0 <= i < |missing| => FieldName(missing[i])), ", ")
  }

  /** The clauses handed to `generatePDF` once every field is present. */
  function SelectionOf(clauses: ClausesValue): Selection
    requires clauses.ClauseObject? && MissingFields(clauses) == []
  {
    assert Payment in AllFields && Delivery in AllFields && Penalty in AllFields;
    Selection(clauses.payment.value, clauses.delivery.value, clauses.penalty.value)
  }

  /** `POST`: the first failing check decides the response; a PDF is made only
      when all of them pass. */
  function GenerateResponse(req: GenerateRequest, timestamp: nat, render: string -> bool): (r: Response)
    ensures r.status in {200, 400, 500}
    ensures req.Body? && Falsy(req.contractText) ==> r == Error(400, "Contract text is required")
    ensures req.Body? && !Falsy(req.contractText) && !req.selectedClauses.ClauseObject?
      ==> r == Error(400, "Selected clauses are required")
    ensures req.Body? && !Falsy(req.contractText) && req.selectedClauses.ClauseObject?
      && MissingFields(req.selectedClauses) != []
      ==> r == Error(400, MissingMessage(MissingFields(req.selectedClauses)))
    ensures r.status == 200 <==>
      && req.Body? && !Falsy(req.contractText) && req.selectedClauses.ClauseObject?
      && MissingFields(req.selectedClauses) == []
      && render(Markdown(req.contractText.value, SelectionOf(req.selectedClauses)))
    ensures r.status == 200 ==> r.body == PdfBody(DownloadUrl(timestamp))
    ensures req.Malformed? ==> r == Error(500, "Failed to generate contract")
    ensures req.Body? && !Falsy(req.contractText) && req.selectedClauses.ClauseObject?
      && MissingFields(req.selectedClauses) == []
      && !render(Markdown(req.contractText.value, SelectionOf(req.selectedClauses)))
      ==> r == Error(500, "Failed to generate contract")
    ensures r.status == 500 ==> r.body == ErrorBody("Failed to generate contract")
  {
    match req
    case Malformed => Error(500, "Failed to generate contract")
    case Body(text, clauses) =>
      if Falsy(text) then Error(400, "Contract text is required")
      else if !clauses.ClauseObject? then Error(400, "Selected clauses are required")
      else if MissingFields(clauses) != [] then Error(400, MissingMessage(MissingFields(clauses)))
      else match PdfOutcome(text.value, SelectionOf(clauses), timestamp, render)
        case Some(url) => Response(200, PdfBody(url))
        case None => Error(500, "Failed to generate contract")
  }

  /** A request the checks refuse gets its answer before the PDF is built: the
      timestamp and the renderer make no difference to it. */
  lemma ChecksIgnoreRendering(req: GenerateRequest, t1: nat, g1: string -> bool, t2: nat, g2: string -> bool)
    requires GenerateResponse(req, t1, g1).status == 400
    ensures GenerateResponse(req, t2, g2) == GenerateResponse(req, t1, g1)
  {
  }

  /** With every field selected, the missing-fields list is empty, and with
      none selected it is all three fields in order. */
  lemma MissingFieldsExtremes(clauses: ClausesValue)
    requires clauses.ClauseObject?
    ensures MissingFields(clauses) == [] <==>
      !Falsy(clauses.payment) && !Falsy(clauses.delivery) && !Falsy(clauses.penalty)
    ensures Falsy(clauses.payment) && Falsy(clauses.delivery) && Falsy(clauses.penalty)
      ==> MissingFields(clauses) == [Payment, Delivery, Penalty]
  {
    assert Payment in AllFields && Delivery in AllFields && Penalty in AllFields;
    if Falsy(clauses.payment) && Falsy(clauses.delivery) && Falsy(clauses.penalty) {
      var tail := [Delivery, Penalty];
      assert AllFields[1..] == tail && tail[1..] == [Penalty] && [Penalty][1..] == [];
      assert MissingIn([Penalty], clauses) == [Penalty];
      assert MissingIn(tail, clauses) == [Delivery, Penalty];
    }
  }
}
