/** The shared data types of the negotiation pipeline (types/index.ts). */
module Types {

  datatype Option<T> = None | Some(value: T)

  /** The user's three negotiation targets. The request boundary parses them from
      form fields; the model keeps them as integers. */
  datatype Objectives = Objectives(paymentDays: int, deliveryDays: int, penaltyRate: int)

  /** `ClauseField`: the three fixed clause categories. */
  datatype ClauseField = Payment | Delivery | Penalty

  /** The JSON spelling of a clause field. */
  function FieldName(f: ClauseField): string
  {
    match f
    case Payment => "payment"
    case Delivery => "delivery"
    case Penalty => "penalty"
  }

  /** The fields in the order every part of the pipeline uses. */
  const AllFields: seq<ClauseField> := [Payment, Delivery, Penalty]

  /** `ClauseSuggestion`: alternative clause texts and their parallel risk scores. */
  datatype ClauseSuggestion = ClauseSuggestion(field: ClauseField, suggestions: seq<string>, scores: seq<int>)

  /** `Record<ClauseField, string>`: the clause text chosen for each category. */
  datatype Selection = Selection(payment: string, delivery: string, penalty: string)
}

/** The JSON responses the two API routes send back. */
module Http {
  import opened Types

  datatype ResponseBody =
    | ErrorBody(error: string)
    | PdfBody(pdfUrl: string)
    | NegotiationBody(suggestions: seq<ClauseSuggestion>, contractText: string)

  /** `NextResponse.json(body, { status })`; a response built without a status is 200. */
  datatype Response = Response(status: nat, body: ResponseBody)

  function Error(status: nat, message: string): Response
  {
    Response(status, ErrorBody(message))
  }
}
