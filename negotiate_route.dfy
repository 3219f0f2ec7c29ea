/** `POST /api/negotiate` (app/api/negotiate/route.ts): checks the uploaded
    form, checks that the file is a readable PDF or DOCX document, and then
    negotiates over a generic contract built from the objectives alone. The
    form is given already read; the document checks, the date and the chat
    service are parameters. */
module NegotiateRoute {
  import opened Types
  import opened Strings
  import opened Http
  import opened Sanitizer
  import opened JsObject
  import opened Sections
  import opened Formatter
  import opened PdfBuilder
  import opened Negotiator

  // ---------------------------------------------------------------------------
  // generateGenericContract

  /** The sentence that carries the date. */
  function DateSentence(date: string): string
  {
    "This Contract Agreement " + "(the \"Agreement\") is " + "entered into as of " + date + "."
  }

  /** The template, line by line: the preamble and the nine titled sections,
      with the date and the three objectives filled in. */
  function PreambleBody(date: string): seq<string>
  {
    [
      "CONTRACT AGREEMENT",
      "",
      DateSentence(date),
      ""
    ]
  }

  const PartiesBody: seq<string> :=
    [
      "Between the Client and the " + "Provider.",
      ""
    ]

  const ScopeBody: seq<string> :=
    [
      "The Provider agrees to " + "deliver the products and/or " + "services as described below.",
      ""
    ]

  function PaymentBody(days: int): seq<string>
  {
    [
      "The Client shall pay the " + "Provider the agreed amount " + "within " + IntToString(days) + " days of receiving the " + "invoice.",
      "",
      "Payment shall be made by " + "bank transfer to the " + "Provider's designated " + "account.",
      "",
      "Late payments will incur " + "interest at a rate of 2% " + "per month.",
      ""
    ]
  }

  function DeliveryBody(days: int): seq<string>
  {
    [
      "The Provider shall deliver " + "all products and complete " + "all services within " + IntToString(days) + " days from the date of this " + "agreement.",
      "",
      "Delivery shall be " + "considered complete when " + "the Client acknowledges " + "receipt of all deliverables.",
      ""
    ]
  }

  function PenaltiesBody(rate: int): seq<string>
  {
    [
      "In case of late delivery, a " + "penalty of " + IntToString(rate) + "% of the total contract " + "value will be applied for " + "each week of delay.",
      "",
      "The total penalties shall " + "not exceed 10% of the " + "contract value.",
      ""
    ]
  }

  const ConfidentialityBody: seq<string> :=
    [
      "Both parties agree to " + "maintain the " + "confidentiality of any " + "proprietary information " + "shared during the course of " + "this agreement.",
      ""
    ]

  const TerminationBody: seq<string> :=
    [
      "Either party may terminate " + "this agreement with 30 days " + "written notice.",
      "",
      "In case of termination, the " + "Client shall pay for all " + "work completed up to the " + "termination date.",
      ""
    ]

  const GoverningLawBody: seq<string> :=
    [
      "This agreement shall be " + "governed by the laws of " + "[Jurisdiction].",
      ""
    ]

  const SignaturesBody: seq<string> :=
    [
      "This agreement constitutes " + "the entire understanding " + "between the parties."
    ]

  function ContractTemplate(objectives: Objectives, date: string): Layout
  {
    Layout(PreambleBody(date), [
      Section("PARTIES", PartiesBody),
      Section("SCOPE OF WORK", ScopeBody),
      Section("PAYMENT TERMS", PaymentBody(objectives.paymentDays)),
      Section("DELIVERY TIME", DeliveryBody(objectives.deliveryDays)),
      Section("PENALTIES", PenaltiesBody(objectives.penaltyRate)),
      Section("CONFIDENTIALITY", ConfidentialityBody),
      Section("TERMINATION", TerminationBody),
      Section("GOVERNING LAW", GoverningLawBody),
      Section("SIGNATURES", SignaturesBody)
    ])
  }

  /** The contract text: the template's lines between the line feed that opens
      the template literal and the line feed and indentation that close it. */
  function GenericContract(objectives: Objectives, date: string): string
  {
    Framed(Join(LayoutLines(ContractTemplate(objectives, date)), "\n"))
  }

  // ---------------------------------------------------------------------------
  // The template parses into its sections

  /** What `toLocaleDateString` is assumed to give: a non-empty, clean date
      on one line. */
  predicate DateOk(date: string)
  {
    date != [] && CleanLine(date)
  }

  /** A piece of a template line: only safe characters, no double space and no
      line break. */
  predicate SafePiece(p: string)
  {
    p != [] && AllSafe(p) && NoDoubleSpace(p) && '\n' !in p
  }

  /** A body line of the template: clean, and not a heading. */
  predicate BodyLine(x: string)
  {
    CleanLine(x) && !IsHeading(x)
  }

  lemma Append(a: string, b: string)
    requires SafePiece(a) && SafePiece(b) && (a[|a| - 1] != ' ' || b[0] != ' ')
    ensures SafePiece(a + b) && (a + b)[0] == a[0] && (a + b)[|a + b| - 1] == b[|b| - 1]
  {
    NoDoubleSpaceConcat(a, b);
  }

  lemma LineEnd(x: string)
    requires SafePiece(x) && !IsWhitespace(x[0]) && !IsWhitespace(x[|x| - 1]) && x[|x| - 1] != ':'
    ensures BodyLine(x)
  {
  }

  lemma NumberPiece(n: int)
    ensures SafePiece(IntToString(n))
    ensures !IsWhitespace(IntToString(n)[0]) && !IsWhitespace(IntToString(n)[|IntToString(n)| - 1])
  {
    var s := IntToString(n);
    var digits := NatToString(if n < 0 then -n else n);
    assert forall c :: c in s ==> c == '-' || c in digits;
    assert forall c :: c in digits ==> IsDigit(c);
    assert ' ' !in s;
  }

  lemma DatePiece(date: string)
    requires DateOk(date)
    ensures SafePiece(date) && !IsWhitespace(date[0]) && !IsWhitespace(date[|date| - 1])
  {
  }

  lemma PreambleBodyLines(date: string)
    requires DateOk(date)
    ensures forall x :: x in PreambleBody(date) ==> BodyLine(x)
  {
    PreamblePiece1();
    LineEnd("CONTRACT AGREEMENT");
    PreamblePiece2();
    PreamblePiece3();
    PreamblePiece4();
    DatePiece(date);
    PreamblePiece5();
    Append("This Contract Agreement ", "(the \"Agreement\") is ");
    Append("This Contract Agreement " + "(the \"Agreement\") is ", "entered into as of ");
    Append("This Contract Agreement " + "(the \"Agreement\") is " + "entered into as of ", date);
    Append("This Contract Agreement " + "(the \"Agreement\") is " + "entered into as of " + date, ".");
    LineEnd("This Contract Agreement " + "(the \"Agreement\") is " + "entered into as of " + date + ".");
  }

  lemma PartiesBodyLines()
    ensures forall x :: x in PartiesBody ==> BodyLine(x)
  {
    PartiesPiece1();
    PartiesPiece2();
    Append("Between the Client and the ", "Provider.");
    LineEnd("Between the Client and the " + "Provider.");
  }

  lemma ScopeBodyLines()
    ensures forall x :: x in ScopeBody ==> BodyLine(x)
  {
    ScopePiece1();
    ScopePiece2();
    ScopePiece3();
    Append("The Provider agrees to ", "deliver the products and/or ");
    Append("The Provider agrees to " + "deliver the products and/or ", "services as described below.");
    LineEnd("The Provider agrees to " + "deliver the products and/or " + "services as described below.");
  }

  lemma PaymentBodyLines(days: int)
    ensures forall x :: x in PaymentBody(days) ==> BodyLine(x)
  {
    PaymentPiece1();
    PaymentPiece2();
    PaymentPiece3();
    NumberPiece(days);
    PaymentPiece4();
    PaymentPiece5();
    Append("The Client shall pay the ", "Provider the agreed amount ");
    Append("The Client shall pay the " + "Provider the agreed amount ", "within ");
    Append("The Client shall pay the " + "Provider the agreed amount " + "within ", IntToString(days));
    Append("The Client shall pay the " + "Provider the agreed amount " + "within " + IntToString(days), " days of receiving the ");
    Append("The Client shall pay the " + "Provider the agreed amount " + "within " + IntToString(days) + " days of receiving the ", "invoice.");
    LineEnd("The Client shall pay the " + "Provider the agreed amount " + "within " + IntToString(days) + " days of receiving the " + "invoice.");
    PaymentPiece6();
    PaymentPiece7();
    PaymentPiece8();
    PaymentPiece9();
    Append("Payment shall be made by ", "bank transfer to the ");
    Append("Payment shall be made by " + "bank transfer to the ", "Provider's designated ");
    Append("Payment shall be made by " + "bank transfer to the " + "Provider's designated ", "account.");
    LineEnd("Payment shall be made by " + "bank transfer to the " + "Provider's designated " + "account.");
    PaymentPiece10();
    PaymentPiece11();
    PaymentPiece12();
    Append("Late payments will incur ", "interest at a rate of 2% ");
    Append("Late payments will incur " + "interest at a rate of 2% ", "per month.");
    LineEnd("Late payments will incur " + "interest at a rate of 2% " + "per month.");
  }

  lemma DeliveryBodyLines(days: int)
    ensures forall x :: x in DeliveryBody(days) ==> BodyLine(x)
  {
    DeliveryPiece1();
    DeliveryPiece2();
    DeliveryPiece3();
    NumberPiece(days);
    DeliveryPiece4();
    DeliveryPiece5();
    Append("The Provider shall deliver ", "all products and complete ");
    Append("The Provider shall deliver " + "all products and complete ", "all services within ");
    Append("The Provider shall deliver " + "all products and complete " + "all services within ", IntToString(days));
    Append("The Provider shall deliver " + "all products and complete " + "all services within " + IntToString(days), " days from the date of this ");
    Append("The Provider shall deliver " + "all products and complete " + "all services within " + IntToString(days) + " days from the date of this ", "agreement.");
    LineEnd("The Provider shall deliver " + "all products and complete " + "all services within " + IntToString(days) + " days from the date of this " + "agreement.");
    DeliveryPiece6();
    DeliveryPiece7();
    DeliveryPiece8();
    DeliveryPiece9();
    Append("Delivery shall be ", "considered complete when ");
    Append("Delivery shall be " + "considered complete when ", "the Client acknowledges ");
    Append("Delivery shall be " + "considered complete when " + "the Client acknowledges ", "receipt of all deliverables.");
    LineEnd("Delivery shall be " + "considered complete when " + "the Client acknowledges " + "receipt of all deliverables.");
  }

  lemma PenaltiesBodyLines(rate: int)
    ensures forall x :: x in PenaltiesBody(rate) ==> BodyLine(x)
  {
    PenaltiesPiece1();
    PenaltiesPiece2();
    NumberPiece(rate);
    PenaltiesPiece3();
    PenaltiesPiece4();
    PenaltiesPiece5();
    Append("In case of late delivery, a ", "penalty of ");
    Append("In case of late delivery, a " + "penalty of ", IntToString(rate));
    Append("In case of late delivery, a " + "penalty of " + IntToString(rate), "% of the total contract ");
    Append("In case of late delivery, a " + "penalty of " + IntToString(rate) + "% of the total contract ", "value will be applied for ");
    Append("In case of late delivery, a " + "penalty of " + IntToString(rate) + "% of the total contract " + "value will be applied for ", "each week of delay.");
    LineEnd("In case of late delivery, a " + "penalty of " + IntToString(rate) + "% of the total contract " + "value will be applied for " + "each week of delay.");
    PenaltiesPiece6();
    PenaltiesPiece7();
    PenaltiesPiece8();
    Append("The total penalties shall ", "not exceed 10% of the ");
    Append("The total penalties shall " + "not exceed 10% of the ", "contract value.");
    LineEnd("The total penalties shall " + "not exceed 10% of the " + "contract value.");
  }

  lemma ConfidentialityBodyLines()
    ensures forall x :: x in ConfidentialityBody ==> BodyLine(x)
  {
    ConfidentialityPiece1();
    ConfidentialityPiece2();
    ConfidentialityPiece3();
    ConfidentialityPiece4();
    ConfidentialityPiece5();
    ConfidentialityPiece6();
    Append("Both parties agree to ", "maintain the ");
    Append("Both parties agree to " + "maintain the ", "confidentiality of any ");
    Append("Both parties agree to " + "maintain the " + "confidentiality of any ", "proprietary information ");
    Append("Both parties agree to " + "maintain the " + "confidentiality of any " + "proprietary information ", "shared during the course of ");
    Append("Both parties agree to " + "maintain the " + "confidentiality of any " + "proprietary information " + "shared during the course of ", "this agreement.");
    LineEnd("Both parties agree to " + "maintain the " + "confidentiality of any " + "proprietary information " + "shared during the course of " + "this agreement.");
  }

  lemma TerminationBodyLines()
    ensures forall x :: x in TerminationBody ==> BodyLine(x)
  {
    TerminationPiece1();
    TerminationPiece2();
    TerminationPiece3();
    Append("Either party may terminate ", "this agreement with 30 days ");
    Append("Either party may terminate " + "this agreement with 30 days ", "written notice.");
    LineEnd("Either party may terminate " + "this agreement with 30 days " + "written notice.");
    TerminationPiece4();
    TerminationPiece5();
    TerminationPiece6();
    TerminationPiece7();
    Append("In case of termination, the ", "Client shall pay for all ");
    Append("In case of termination, the " + "Client shall pay for all ", "work completed up to the ");
    Append("In case of termination, the " + "Client shall pay for all " + "work completed up to the ", "termination date.");
    LineEnd("In case of termination, the " + "Client shall pay for all " + "work completed up to the " + "termination date.");
  }

  lemma GoverningLawBodyLines()
    ensures forall x :: x in GoverningLawBody ==> BodyLine(x)
  {
    GoverningLawPiece1();
    GoverningLawPiece2();
    GoverningLawPiece3();
    Append("This agreement shall be ", "governed by the laws of ");
    Append("This agreement shall be " + "governed by the laws of ", "[Jurisdiction].");
    LineEnd("This agreement shall be " + "governed by the laws of " + "[Jurisdiction].");
  }

  lemma SignaturesBodyLines()
    ensures forall x :: x in SignaturesBody ==> BodyLine(x)
  {
    SignaturesPiece1();
    SignaturesPiece2();
    SignaturesPiece3();
    Append("This agreement constitutes ", "the entire understanding ");
    Append("This agreement constitutes " + "the entire understanding ", "between the parties.");
    LineEnd("This agreement constitutes " + "the entire understanding " + "between the parties.");
  }

  lemma PreamblePiece1()
    ensures SafePiece("CONTRACT AGREEMENT")
    ensures "CONTRACT AGREEMENT"[0] == 'C' && "CONTRACT AGREEMENT"[17] == 'T'
  {
    PreamblePiece1A();
    PreamblePiece1B();
    Append("CONTRACT ", "AGREEMENT");
  }

  lemma PreamblePiece1A()
    ensures SafePiece("CONTRACT ")
    ensures "CONTRACT "[0] == 'C' && "CONTRACT "[8] == ' '
  {
  }

  lemma PreamblePiece1B()
    ensures SafePiece("AGREEMENT")
    ensures "AGREEMENT"[0] == 'A' && "AGREEMENT"[8] == 'T'
  {
  }

  lemma PreamblePiece2()
    ensures SafePiece("This Contract Agreement ")
    ensures "This Contract Agreement "[0] == 'T' && "This Contract Agreement "[23] == ' '
  {
    PreamblePiece2A();
    PreamblePiece2B();
    Append("This Contract ", "Agreement ");
  }

  lemma PreamblePiece2A()
    ensures SafePiece("This Contract ")
    ensures "This Contract "[0] == 'T' && "This Contract "[13] == ' '
  {
  }

  lemma PreamblePiece2B()
    ensures SafePiece("Agreement ")
    ensures "Agreement "[0] == 'A' && "Agreement "[9] == ' '
  {
  }

  lemma PreamblePiece3()
    ensures SafePiece("(the \"Agreement\") is ")
    ensures "(the \"Agreement\") is "[0] == '(' && "(the \"Agreement\") is "[20] == ' '
  {
    PreamblePiece3A();
    PreamblePiece3B();
    PreamblePiece3C();
    Append("(the ", "\"Agreement\") ");
    Append("(the " + "\"Agreement\") ", "is ");
  }

  lemma PreamblePiece3A()
    ensures SafePiece("(the ")
    ensures "(the "[0] == '(' && "(the "[4] == ' '
  {
  }

  lemma PreamblePiece3B()
    ensures SafePiece("\"Agreement\") ")
    ensures "\"Agreement\") "[0] == '\"' && "\"Agreement\") "[12] == ' '
  {
  }

  lemma PreamblePiece3C()
    ensures SafePiece("is ")
    ensures "is "[0] == 'i' && "is "[2] == ' '
  {
  }

  lemma PreamblePiece4()
    ensures SafePiece("entered into as of ")
    ensures "entered into as of "[0] == 'e' && "entered into as of "[18] == ' '
  {
    PreamblePiece4A();
    PreamblePiece4B();
    Append("entered into ", "as of ");
  }

  lemma PreamblePiece4A()
    ensures SafePiece("entered into ")
    ensures "entered into "[0] == 'e' && "entered into "[12] == ' '
  {
  }

  lemma PreamblePiece4B()
    ensures SafePiece("as of ")
    ensures "as of "[0] == 'a' && "as of "[5] == ' '
  {
  }

  lemma PreamblePiece5()
    ensures SafePiece(".")
    ensures "."[0] == '.' && "."[0] == '.'
  {
  }

  lemma PartiesPiece1()
    ensures SafePiece("Between the Client and the ")
    ensures "Between the Client and the "[0] == 'B' && "Between the Client and the "[26] == ' '
  {
    PartiesPiece1A();
    PartiesPiece1B();
    PartiesPiece1C();
    Append("Between the ", "Client and ");
    Append("Between the " + "Client and ", "the ");
  }

  lemma PartiesPiece1A()
    ensures SafePiece("Between the ")
    ensures "Between the "[0] == 'B' && "Between the "[11] == ' '
  {
  }

  lemma PartiesPiece1B()
    ensures SafePiece("Client and ")
    ensures "Client and "[0] == 'C' && "Client and "[10] == ' '
  {
  }

  lemma PartiesPiece1C()
    ensures SafePiece("the ")
    ensures "the "[0] == 't' && "the "[3] == ' '
  {
  }

  lemma PartiesPiece2()
    ensures SafePiece("Provider.")
    ensures "Provider."[0] == 'P' && "Provider."[8] == '.'
  {
  }

  lemma ScopePiece1()
    ensures SafePiece("The Provider agrees to ")
    ensures "The Provider agrees to "[0] == 'T' && "The Provider agrees to "[22] == ' '
  {
    ScopePiece1A();
    ScopePiece1B();
    Append("The Provider ", "agrees to ");
  }

  lemma ScopePiece1A()
    ensures SafePiece("The Provider ")
    ensures "The Provider "[0] == 'T' && "The Provider "[12] == ' '
  {
  }

  lemma ScopePiece1B()
    ensures SafePiece("agrees to ")
    ensures "agrees to "[0] == 'a' && "agrees to "[9] == ' '
  {
  }

  lemma ScopePiece2()
    ensures SafePiece("deliver the products and/or ")
    ensures "deliver the products and/or "[0] == 'd' && "deliver the products and/or "[27] == ' '
  {
    ScopePiece2A();
    ScopePiece2B();
    ScopePiece2C();
    Append("deliver the ", "products ");
    Append("deliver the " + "products ", "and/or ");
  }

  lemma ScopePiece2A()
    ensures SafePiece("deliver the ")
    ensures "deliver the "[0] == 'd' && "deliver the "[11] == ' '
  {
  }

  lemma ScopePiece2B()
    ensures SafePiece("products ")
    ensures "products "[0] == 'p' && "products "[8] == ' '
  {
  }

  lemma ScopePiece2C()
    ensures SafePiece("and/or ")
    ensures "and/or "[0] == 'a' && "and/or "[6] == ' '
  {
  }

  lemma ScopePiece3()
    ensures SafePiece("services as described below.")
    ensures "services as described below."[0] == 's' && "services as described below."[27] == '.'
  {
    ScopePiece3A();
    ScopePiece3B();
    ScopePiece3C();
    Append("services as ", "described ");
    Append("services as " + "described ", "below.");
  }

  lemma ScopePiece3A()
    ensures SafePiece("services as ")
    ensures "services as "[0] == 's' && "services as "[11] == ' '
  {
  }

  lemma ScopePiece3B()
    ensures SafePiece("described ")
    ensures "described "[0] == 'd' && "described "[9] == ' '
  {
  }

  lemma ScopePiece3C()
    ensures SafePiece("below.")
    ensures "below."[0] == 'b' && "below."[5] == '.'
  {
  }

  lemma PaymentPiece1()
    ensures SafePiece("The Client shall pay the ")
    ensures "The Client shall pay the "[0] == 'T' && "The Client shall pay the "[24] == ' '
  {
    PaymentPiece1A();
    PaymentPiece1B();
    Append("The Client ", "shall pay the ");
  }

  lemma PaymentPiece1A()
    ensures SafePiece("The Client ")
    ensures "The Client "[0] == 'T' && "The Client "[10] == ' '
  {
  }

  lemma PaymentPiece1B()
    ensures SafePiece("shall pay the ")
    ensures "shall pay the "[0] == 's' && "shall pay the "[13] == ' '
  {
  }

  lemma PaymentPiece2()
    ensures SafePiece("Provider the agreed amount ")
    ensures "Provider the agreed amount "[0] == 'P' && "Provider the agreed amount "[26] == ' '
  {
    PaymentPiece2A();
    PaymentPiece2B();
    Append("Provider the ", "agreed amount ");
  }

  lemma PaymentPiece2A()
    ensures SafePiece("Provider the ")
    ensures "Provider the "[0] == 'P' && "Provider the "[12] == ' '
  {
  }

  lemma PaymentPiece2B()
    ensures SafePiece("agreed amount ")
    ensures "agreed amount "[0] == 'a' && "agreed amount "[13] == ' '
  {
  }

  lemma PaymentPiece3()
    ensures SafePiece("within ")
    ensures "within "[0] == 'w' && "within "[6] == ' '
  {
  }

  lemma PaymentPiece4()
    ensures SafePiece(" days of receiving the ")
    ensures " days of receiving the "[0] == ' ' && " days of receiving the "[22] == ' '
  {
    PaymentPiece4A();
    PaymentPiece4B();
    Append(" days of ", "receiving the ");
  }

  lemma PaymentPiece4A()
    ensures SafePiece(" days of ")
    ensures " days of "[0] == ' ' && " days of "[8] == ' '
  {
  }

  lemma PaymentPiece4B()
    ensures SafePiece("receiving the ")
    ensures "receiving the "[0] == 'r' && "receiving the "[13] == ' '
  {
  }

  lemma PaymentPiece5()
    ensures SafePiece("invoice.")
    ensures "invoice."[0] == 'i' && "invoice."[7] == '.'
  {
  }

  lemma PaymentPiece6()
    ensures SafePiece("Payment shall be made by ")
    ensures "Payment shall be made by "[0] == 'P' && "Payment shall be made by "[24] == ' '
  {
    PaymentPiece6A();
    PaymentPiece6B();
    Append("Payment shall ", "be made by ");
  }

  lemma PaymentPiece6A()
    ensures SafePiece("Payment shall ")
    ensures "Payment shall "[0] == 'P' && "Payment shall "[13] == ' '
  {
  }

  lemma PaymentPiece6B()
    ensures SafePiece("be made by ")
    ensures "be made by "[0] == 'b' && "be made by "[10] == ' '
  {
  }

  lemma PaymentPiece7()
    ensures SafePiece("bank transfer to the ")
    ensures "bank transfer to the "[0] == 'b' && "bank transfer to the "[20] == ' '
  {
    PaymentPiece7A();
    PaymentPiece7B();
    Append("bank transfer ", "to the ");
  }

  lemma PaymentPiece7A()
    ensures SafePiece("bank transfer ")
    ensures "bank transfer "[0] == 'b' && "bank transfer "[13] == ' '
  {
  }

  lemma PaymentPiece7B()
    ensures SafePiece("to the ")
    ensures "to the "[0] == 't' && "to the "[6] == ' '
  {
  }

  lemma PaymentPiece8()
    ensures SafePiece("Provider's designated ")
    ensures "Provider's designated "[0] == 'P' && "Provider's designated "[21] == ' '
  {
    PaymentPiece8A();
    PaymentPiece8B();
    Append("Provider's ", "designated ");
  }

  lemma PaymentPiece8A()
    ensures SafePiece("Provider's ")
    ensures "Provider's "[0] == 'P' && "Provider's "[10] == ' '
  {
  }

  lemma PaymentPiece8B()
    ensures SafePiece("designated ")
    ensures "designated "[0] == 'd' && "designated "[10] == ' '
  {
  }

  lemma PaymentPiece9()
    ensures SafePiece("account.")
    ensures "account."[0] == 'a' && "account."[7] == '.'
  {
  }

  lemma PaymentPiece10()
    ensures SafePiece("Late payments will incur ")
    ensures "Late payments will incur "[0] == 'L' && "Late payments will incur "[24] == ' '
  {
    PaymentPiece10A();
    PaymentPiece10B();
    Append("Late payments ", "will incur ");
  }

  lemma PaymentPiece10A()
    ensures SafePiece("Late payments ")
    ensures "Late payments "[0] == 'L' && "Late payments "[13] == ' '
  {
  }

  lemma PaymentPiece10B()
    ensures SafePiece("will incur ")
    ensures "will incur "[0] == 'w' && "will incur "[10] == ' '
  {
  }

  lemma PaymentPiece11()
    ensures SafePiece("interest at a rate of 2% ")
    ensures "interest at a rate of 2% "[0] == 'i' && "interest at a rate of 2% "[24] == ' '
  {
    PaymentPiece11A();
    PaymentPiece11B();
    Append("interest at a ", "rate of 2% ");
  }

  lemma PaymentPiece11A()
    ensures SafePiece("interest at a ")
    ensures "interest at a "[0] == 'i' && "interest at a "[13] == ' '
  {
  }

  lemma PaymentPiece11B()
    ensures SafePiece("rate of 2% ")
    ensures "rate of 2% "[0] == 'r' && "rate of 2% "[10] == ' '
  {
  }

  lemma PaymentPiece12()
    ensures SafePiece("per month.")
    ensures "per month."[0] == 'p' && "per month."[9] == '.'
  {
  }

  lemma DeliveryPiece1()
    ensures SafePiece("The Provider shall deliver ")
    ensures "The Provider shall deliver "[0] == 'T' && "The Provider shall deliver "[26] == ' '
  {
    DeliveryPiece1A();
    DeliveryPiece1B();
    Append("The Provider ", "shall deliver ");
  }

  lemma DeliveryPiece1A()
    ensures SafePiece("The Provider ")
    ensures "The Provider "[0] == 'T' && "The Provider "[12] == ' '
  {
  }

  lemma DeliveryPiece1B()
    ensures SafePiece("shall deliver ")
    ensures "shall deliver "[0] == 's' && "shall deliver "[13] == ' '
  {
  }

  lemma DeliveryPiece2()
    ensures SafePiece("all products and complete ")
    ensures "all products and complete "[0] == 'a' && "all products and complete "[25] == ' '
  {
    DeliveryPiece2A();
    DeliveryPiece2B();
    Append("all products ", "and complete ");
  }

  lemma DeliveryPiece2A()
    ensures SafePiece("all products ")
    ensures "all products "[0] == 'a' && "all products "[12] == ' '
  {
  }

  lemma DeliveryPiece2B()
    ensures SafePiece("and complete ")
    ensures "and complete "[0] == 'a' && "and complete "[12] == ' '
  {
  }

  lemma DeliveryPiece3()
    ensures SafePiece("all services within ")
    ensures "all services within "[0] == 'a' && "all services within "[19] == ' '
  {
    DeliveryPiece3A();
    DeliveryPiece3B();
    Append("all services ", "within ");
  }

  lemma DeliveryPiece3A()
    ensures SafePiece("all services ")
    ensures "all services "[0] == 'a' && "all services "[12] == ' '
  {
  }

  lemma DeliveryPiece3B()
    ensures SafePiece("within ")
    ensures "within "[0] == 'w' && "within "[6] == ' '
  {
  }

  lemma DeliveryPiece4()
    ensures SafePiece(" days from the date of this ")
    ensures " days from the date of this "[0] == ' ' && " days from the date of this "[27] == ' '
  {
    DeliveryPiece4A();
    DeliveryPiece4B();
    DeliveryPiece4C();
    Append(" days from ", "the date of ");
    Append(" days from " + "the date of ", "this ");
  }

  lemma DeliveryPiece4A()
    ensures SafePiece(" days from ")
    ensures " days from "[0] == ' ' && " days from "[10] == ' '
  {
  }

  lemma DeliveryPiece4B()
    ensures SafePiece("the date of ")
    ensures "the date of "[0] == 't' && "the date of "[11] == ' '
  {
  }

  lemma DeliveryPiece4C()
    ensures SafePiece("this ")
    ensures "this "[0] == 't' && "this "[4] == ' '
  {
  }

  lemma DeliveryPiece5()
    ensures SafePiece("agreement.")
    ensures "agreement."[0] == 'a' && "agreement."[9] == '.'
  {
  }

  lemma DeliveryPiece6()
    ensures SafePiece("Delivery shall be ")
    ensures "Delivery shall be "[0] == 'D' && "Delivery shall be "[17] == ' '
  {
    DeliveryPiece6A();
    DeliveryPiece6B();
    Append("Delivery ", "shall be ");
  }

  lemma DeliveryPiece6A()
    ensures SafePiece("Delivery ")
    ensures "Delivery "[0] == 'D' && "Delivery "[8] == ' '
  {
  }

  lemma DeliveryPiece6B()
    ensures SafePiece("shall be ")
    ensures "shall be "[0] == 's' && "shall be "[8] == ' '
  {
  }

  lemma DeliveryPiece7()
    ensures SafePiece("considered complete when ")
    ensures "considered complete when "[0] == 'c' && "considered complete when "[24] == ' '
  {
    DeliveryPiece7A();
    DeliveryPiece7B();
    Append("considered ", "complete when ");
  }

  lemma DeliveryPiece7A()
    ensures SafePiece("considered ")
    ensures "considered "[0] == 'c' && "considered "[10] == ' '
  {
  }

  lemma DeliveryPiece7B()
    ensures SafePiece("complete when ")
    ensures "complete when "[0] == 'c' && "complete when "[13] == ' '
  {
  }

  lemma DeliveryPiece8()
    ensures SafePiece("the Client acknowledges ")
    ensures "the Client acknowledges "[0] == 't' && "the Client acknowledges "[23] == ' '
  {
    DeliveryPiece8A();
    DeliveryPiece8B();
    Append("the Client ", "acknowledges ");
  }

  lemma DeliveryPiece8A()
    ensures SafePiece("the Client ")
    ensures "the Client "[0] == 't' && "the Client "[10] == ' '
  {
  }

  lemma DeliveryPiece8B()
    ensures SafePiece("acknowledges ")
    ensures "acknowledges "[0] == 'a' && "acknowledges "[12] == ' '
  {
  }

  lemma DeliveryPiece9()
    ensures SafePiece("receipt of all deliverables.")
    ensures "receipt of all deliverables."[0] == 'r' && "receipt of all deliverables."[27] == '.'
  {
    DeliveryPiece9A();
    DeliveryPiece9B();
    DeliveryPiece9C();
    Append("receipt of ", "all ");
    Append("receipt of " + "all ", "deliverables.");
  }

  lemma DeliveryPiece9A()
    ensures SafePiece("receipt of ")
    ensures "receipt of "[0] == 'r' && "receipt of "[10] == ' '
  {
  }

  lemma DeliveryPiece9B()
    ensures SafePiece("all ")
    ensures "all "[0] == 'a' && "all "[3] == ' '
  {
  }

  lemma DeliveryPiece9C()
    ensures SafePiece("deliverables.")
    ensures "deliverables."[0] == 'd' && "deliverables."[12] == '.'
  {
  }

  lemma PenaltiesPiece1()
    ensures SafePiece("In case of late delivery, a ")
    ensures "In case of late delivery, a "[0] == 'I' && "In case of late delivery, a "[27] == ' '
  {
    PenaltiesPiece1A();
    PenaltiesPiece1B();
    PenaltiesPiece1C();
    Append("In case of ", "late ");
    Append("In case of " + "late ", "delivery, a ");
  }

  lemma PenaltiesPiece1A()
    ensures SafePiece("In case of ")
    ensures "In case of "[0] == 'I' && "In case of "[10] == ' '
  {
  }

  lemma PenaltiesPiece1B()
    ensures SafePiece("late ")
    ensures "late "[0] == 'l' && "late "[4] == ' '
  {
  }

  lemma PenaltiesPiece1C()
    ensures SafePiece("delivery, a ")
    ensures "delivery, a "[0] == 'd' && "delivery, a "[11] == ' '
  {
  }

  lemma PenaltiesPiece2()
    ensures SafePiece("penalty of ")
    ensures "penalty of "[0] == 'p' && "penalty of "[10] == ' '
  {
  }

  lemma PenaltiesPiece3()
    ensures SafePiece("% of the total contract ")
    ensures "% of the total contract "[0] == '%' && "% of the total contract "[23] == ' '
  {
    PenaltiesPiece3A();
    PenaltiesPiece3B();
    PenaltiesPiece3C();
    Append("% of the ", "total ");
    Append("% of the " + "total ", "contract ");
  }

  lemma PenaltiesPiece3A()
    ensures SafePiece("% of the ")
    ensures "% of the "[0] == '%' && "% of the "[8] == ' '
  {
  }

  lemma PenaltiesPiece3B()
    ensures SafePiece("total ")
    ensures "total "[0] == 't' && "total "[5] == ' '
  {
  }

  lemma PenaltiesPiece3C()
    ensures SafePiece("contract ")
    ensures "contract "[0] == 'c' && "contract "[8] == ' '
  {
  }

  lemma PenaltiesPiece4()
    ensures SafePiece("value will be applied for ")
    ensures "value will be applied for "[0] == 'v' && "value will be applied for "[25] == ' '
  {
    PenaltiesPiece4A();
    PenaltiesPiece4B();
    Append("value will be ", "applied for ");
  }

  lemma PenaltiesPiece4A()
    ensures SafePiece("value will be ")
    ensures "value will be "[0] == 'v' && "value will be "[13] == ' '
  {
  }

  lemma PenaltiesPiece4B()
    ensures SafePiece("applied for ")
    ensures "applied for "[0] == 'a' && "applied for "[11] == ' '
  {
  }

  lemma PenaltiesPiece5()
    ensures SafePiece("each week of delay.")
    ensures "each week of delay."[0] == 'e' && "each week of delay."[18] == '.'
  {
    PenaltiesPiece5A();
    PenaltiesPiece5B();
    Append("each week of ", "delay.");
  }

  lemma PenaltiesPiece5A()
    ensures SafePiece("each week of ")
    ensures "each week of "[0] == 'e' && "each week of "[12] == ' '
  {
  }

  lemma PenaltiesPiece5B()
    ensures SafePiece("delay.")
    ensures "delay."[0] == 'd' && "delay."[5] == '.'
  {
  }

  lemma PenaltiesPiece6()
    ensures SafePiece("The total penalties shall ")
    ensures "The total penalties shall "[0] == 'T' && "The total penalties shall "[25] == ' '
  {
    PenaltiesPiece6A();
    PenaltiesPiece6B();
    PenaltiesPiece6C();
    Append("The total ", "penalties ");
    Append("The total " + "penalties ", "shall ");
  }

  lemma PenaltiesPiece6A()
    ensures SafePiece("The total ")
    ensures "The total "[0] == 'T' && "The total "[9] == ' '
  {
  }

  lemma PenaltiesPiece6B()
    ensures SafePiece("penalties ")
    ensures "penalties "[0] == 'p' && "penalties "[9] == ' '
  {
  }

  lemma PenaltiesPiece6C()
    ensures SafePiece("shall ")
    ensures "shall "[0] == 's' && "shall "[5] == ' '
  {
  }

  lemma PenaltiesPiece7()
    ensures SafePiece("not exceed 10% of the ")
    ensures "not exceed 10% of the "[0] == 'n' && "not exceed 10% of the "[21] == ' '
  {
    PenaltiesPiece7A();
    PenaltiesPiece7B();
    Append("not exceed ", "10% of the ");
  }

  lemma PenaltiesPiece7A()
    ensures SafePiece("not exceed ")
    ensures "not exceed "[0] == 'n' && "not exceed "[10] == ' '
  {
  }

  lemma PenaltiesPiece7B()
    ensures SafePiece("10% of the ")
    ensures "10% of the "[0] == '1' && "10% of the "[10] == ' '
  {
  }

  lemma PenaltiesPiece8()
    ensures SafePiece("contract value.")
    ensures "contract value."[0] == 'c' && "contract value."[14] == '.'
  {
    PenaltiesPiece8A();
    PenaltiesPiece8B();
    Append("contract ", "value.");
  }

  lemma PenaltiesPiece8A()
    ensures SafePiece("contract ")
    ensures "contract "[0] == 'c' && "contract "[8] == ' '
  {
  }

  lemma PenaltiesPiece8B()
    ensures SafePiece("value.")
    ensures "value."[0] == 'v' && "value."[5] == '.'
  {
  }

  lemma ConfidentialityPiece1()
    ensures SafePiece("Both parties agree to ")
    ensures "Both parties agree to "[0] == 'B' && "Both parties agree to "[21] == ' '
  {
    ConfidentialityPiece1A();
    ConfidentialityPiece1B();
    Append("Both parties ", "agree to ");
  }

  lemma ConfidentialityPiece1A()
    ensures SafePiece("Both parties ")
    ensures "Both parties "[0] == 'B' && "Both parties "[12] == ' '
  {
  }

  lemma ConfidentialityPiece1B()
    ensures SafePiece("agree to ")
    ensures "agree to "[0] == 'a' && "agree to "[8] == ' '
  {
  }

  lemma ConfidentialityPiece2()
    ensures SafePiece("maintain the ")
    ensures "maintain the "[0] == 'm' && "maintain the "[12] == ' '
  {
  }

  lemma ConfidentialityPiece3()
    ensures SafePiece("confidentiality of any ")
    ensures "confidentiality of any "[0] == 'c' && "confidentiality of any "[22] == ' '
  {
    ConfidentialityPiece3A();
    ConfidentialityPiece3B();
    Append("confidentiality ", "of any ");
  }

  lemma ConfidentialityPiece3A()
    ensures SafePiece("confidentiality ")
    ensures "confidentiality "[0] == 'c' && "confidentiality "[15] == ' '
  {
  }

  lemma ConfidentialityPiece3B()
    ensures SafePiece("of any ")
    ensures "of any "[0] == 'o' && "of any "[6] == ' '
  {
  }

  lemma ConfidentialityPiece4()
    ensures SafePiece("proprietary information ")
    ensures "proprietary information "[0] == 'p' && "proprietary information "[23] == ' '
  {
    ConfidentialityPiece4A();
    ConfidentialityPiece4B();
    Append("proprietary ", "information ");
  }

  lemma ConfidentialityPiece4A()
    ensures SafePiece("proprietary ")
    ensures "proprietary "[0] == 'p' && "proprietary "[11] == ' '
  {
  }

  lemma ConfidentialityPiece4B()
    ensures SafePiece("information ")
    ensures "information "[0] == 'i' && "information "[11] == ' '
  {
  }

  lemma ConfidentialityPiece5()
    ensures SafePiece("shared during the course of ")
    ensures "shared during the course of "[0] == 's' && "shared during the course of "[27] == ' '
  {
    ConfidentialityPiece5A();
    ConfidentialityPiece5B();
    Append("shared during ", "the course of ");
  }

  lemma ConfidentialityPiece5A()
    ensures SafePiece("shared during ")
    ensures "shared during "[0] == 's' && "shared during "[13] == ' '
  {
  }

  lemma ConfidentialityPiece5B()
    ensures SafePiece("the course of ")
    ensures "the course of "[0] == 't' && "the course of "[13] == ' '
  {
  }

  lemma ConfidentialityPiece6()
    ensures SafePiece("this agreement.")
    ensures "this agreement."[0] == 't' && "this agreement."[14] == '.'
  {
    ConfidentialityPiece6A();
    ConfidentialityPiece6B();
    Append("this ", "agreement.");
  }

  lemma ConfidentialityPiece6A()
    ensures SafePiece("this ")
    ensures "this "[0] == 't' && "this "[4] == ' '
  {
  }

  lemma ConfidentialityPiece6B()
    ensures SafePiece("agreement.")
    ensures "agreement."[0] == 'a' && "agreement."[9] == '.'
  {
  }

  lemma TerminationPiece1()
    ensures SafePiece("Either party may terminate ")
    ensures "Either party may terminate "[0] == 'E' && "Either party may terminate "[26] == ' '
  {
    TerminationPiece1A();
    TerminationPiece1B();
    Append("Either party ", "may terminate ");
  }

  lemma TerminationPiece1A()
    ensures SafePiece("Either party ")
    ensures "Either party "[0] == 'E' && "Either party "[12] == ' '
  {
  }

  lemma TerminationPiece1B()
    ensures SafePiece("may terminate ")
    ensures "may terminate "[0] == 'm' && "may terminate "[13] == ' '
  {
  }

  lemma TerminationPiece2()
    ensures SafePiece("this agreement with 30 days ")
    ensures "this agreement with 30 days "[0] == 't' && "this agreement with 30 days "[27] == ' '
  {
    TerminationPiece2A();
    TerminationPiece2B();
    TerminationPiece2C();
    Append("this ", "agreement ");
    Append("this " + "agreement ", "with 30 days ");
  }

  lemma TerminationPiece2A()
    ensures SafePiece("this ")
    ensures "this "[0] == 't' && "this "[4] == ' '
  {
  }

  lemma TerminationPiece2B()
    ensures SafePiece("agreement ")
    ensures "agreement "[0] == 'a' && "agreement "[9] == ' '
  {
  }

  lemma TerminationPiece2C()
    ensures SafePiece("with 30 days ")
    ensures "with 30 days "[0] == 'w' && "with 30 days "[12] == ' '
  {
  }

  lemma TerminationPiece3()
    ensures SafePiece("written notice.")
    ensures "written notice."[0] == 'w' && "written notice."[14] == '.'
  {
    TerminationPiece3A();
    TerminationPiece3B();
    Append("written ", "notice.");
  }

  lemma TerminationPiece3A()
    ensures SafePiece("written ")
    ensures "written "[0] == 'w' && "written "[7] == ' '
  {
  }

  lemma TerminationPiece3B()
    ensures SafePiece("notice.")
    ensures "notice."[0] == 'n' && "notice."[6] == '.'
  {
  }

  lemma TerminationPiece4()
    ensures SafePiece("In case of termination, the ")
    ensures "In case of termination, the "[0] == 'I' && "In case of termination, the "[27] == ' '
  {
    TerminationPiece4A();
    TerminationPiece4B();
    TerminationPiece4C();
    Append("In case of ", "termination, ");
    Append("In case of " + "termination, ", "the ");
  }

  lemma TerminationPiece4A()
    ensures SafePiece("In case of ")
    ensures "In case of "[0] == 'I' && "In case of "[10] == ' '
  {
  }

  lemma TerminationPiece4B()
    ensures SafePiece("termination, ")
    ensures "termination, "[0] == 't' && "termination, "[12] == ' '
  {
  }

  lemma TerminationPiece4C()
    ensures SafePiece("the ")
    ensures "the "[0] == 't' && "the "[3] == ' '
  {
  }

  lemma TerminationPiece5()
    ensures SafePiece("Client shall pay for all ")
    ensures "Client shall pay for all "[0] == 'C' && "Client shall pay for all "[24] == ' '
  {
    TerminationPiece5A();
    TerminationPiece5B();
    Append("Client shall ", "pay for all ");
  }

  lemma TerminationPiece5A()
    ensures SafePiece("Client shall ")
    ensures "Client shall "[0] == 'C' && "Client shall "[12] == ' '
  {
  }

  lemma TerminationPiece5B()
    ensures SafePiece("pay for all ")
    ensures "pay for all "[0] == 'p' && "pay for all "[11] == ' '
  {
  }

  lemma TerminationPiece6()
    ensures SafePiece("work completed up to the ")
    ensures "work completed up to the "[0] == 'w' && "work completed up to the "[24] == ' '
  {
    TerminationPiece6A();
    TerminationPiece6B();
    TerminationPiece6C();
    Append("work ", "completed up ");
    Append("work " + "completed up ", "to the ");
  }

  lemma TerminationPiece6A()
    ensures SafePiece("work ")
    ensures "work "[0] == 'w' && "work "[4] == ' '
  {
  }

  lemma TerminationPiece6B()
    ensures SafePiece("completed up ")
    ensures "completed up "[0] == 'c' && "completed up "[12] == ' '
  {
  }

  lemma TerminationPiece6C()
    ensures SafePiece("to the ")
    ensures "to the "[0] == 't' && "to the "[6] == ' '
  {
  }

  lemma TerminationPiece7()
    ensures SafePiece("termination date.")
    ensures "termination date."[0] == 't' && "termination date."[16] == '.'
  {
    TerminationPiece7A();
    TerminationPiece7B();
    Append("termination ", "date.");
  }

  lemma TerminationPiece7A()
    ensures SafePiece("termination ")
    ensures "termination "[0] == 't' && "termination "[11] == ' '
  {
  }

  lemma TerminationPiece7B()
    ensures SafePiece("date.")
    ensures "date."[0] == 'd' && "date."[4] == '.'
  {
  }

  lemma GoverningLawPiece1()
    ensures SafePiece("This agreement shall be ")
    ensures "This agreement shall be "[0] == 'T' && "This agreement shall be "[23] == ' '
  {
    GoverningLawPiece1A();
    GoverningLawPiece1B();
    GoverningLawPiece1C();
    Append("This ", "agreement ");
    Append("This " + "agreement ", "shall be ");
  }

  lemma GoverningLawPiece1A()
    ensures SafePiece("This ")
    ensures "This "[0] == 'T' && "This "[4] == ' '
  {
  }

  lemma GoverningLawPiece1B()
    ensures SafePiece("agreement ")
    ensures "agreement "[0] == 'a' && "agreement "[9] == ' '
  {
  }

  lemma GoverningLawPiece1C()
    ensures SafePiece("shall be ")
    ensures "shall be "[0] == 's' && "shall be "[8] == ' '
  {
  }

  lemma GoverningLawPiece2()
    ensures SafePiece("governed by the laws of ")
    ensures "governed by the laws of "[0] == 'g' && "governed by the laws of "[23] == ' '
  {
    GoverningLawPiece2A();
    GoverningLawPiece2B();
    Append("governed by ", "the laws of ");
  }

  lemma GoverningLawPiece2A()
    ensures SafePiece("governed by ")
    ensures "governed by "[0] == 'g' && "governed by "[11] == ' '
  {
  }

  lemma GoverningLawPiece2B()
    ensures SafePiece("the laws of ")
    ensures "the laws of "[0] == 't' && "the laws of "[11] == ' '
  {
  }

  lemma GoverningLawPiece3()
    ensures SafePiece("[Jurisdiction].")
    ensures "[Jurisdiction]."[0] == '[' && "[Jurisdiction]."[14] == '.'
  {
  }

  lemma SignaturesPiece1()
    ensures SafePiece("This agreement constitutes ")
    ensures "This agreement constitutes "[0] == 'T' && "This agreement constitutes "[26] == ' '
  {
    SignaturesPiece1A();
    SignaturesPiece1B();
    SignaturesPiece1C();
    Append("This ", "agreement ");
    Append("This " + "agreement ", "constitutes ");
  }

  lemma SignaturesPiece1A()
    ensures SafePiece("This ")
    ensures "This "[0] == 'T' && "This "[4] == ' '
  {
  }

  lemma SignaturesPiece1B()
    ensures SafePiece("agreement ")
    ensures "agreement "[0] == 'a' && "agreement "[9] == ' '
  {
  }

  lemma SignaturesPiece1C()
    ensures SafePiece("constitutes ")
    ensures "constitutes "[0] == 'c' && "constitutes "[11] == ' '
  {
  }

  lemma SignaturesPiece2()
    ensures SafePiece("the entire understanding ")
    ensures "the entire understanding "[0] == 't' && "the entire understanding "[24] == ' '
  {
    SignaturesPiece2A();
    SignaturesPiece2B();
    Append("the entire ", "understanding ");
  }

  lemma SignaturesPiece2A()
    ensures SafePiece("the entire ")
    ensures "the entire "[0] == 't' && "the entire "[10] == ' '
  {
  }

  lemma SignaturesPiece2B()
    ensures SafePiece("understanding ")
    ensures "understanding "[0] == 'u' && "understanding "[13] == ' '
  {
  }

  lemma SignaturesPiece3()
    ensures SafePiece("between the parties.")
    ensures "between the parties."[0] == 'b' && "between the parties."[19] == '.'
  {
    SignaturesPiece3A();
    SignaturesPiece3B();
    Append("between the ", "parties.");
  }

  lemma SignaturesPiece3A()
    ensures SafePiece("between the ")
    ensures "between the "[0] == 'b' && "between the "[11] == ' '
  {
  }

  lemma SignaturesPiece3B()
    ensures SafePiece("parties.")
    ensures "parties."[0] == 'p' && "parties."[7] == '.'
  {
  }

  /** A section title of the template: upper-casing leaves it alone and its
      heading line is clean. */
  predicate TitleLine(t: string)
  {
    ToUpperCase(t) == t && CleanLine(t + ":")
  }

  lemma CapitalTitle(t: string)
    requires t != [] && t[0] != ' ' && NoDoubleSpace(t)
    requires forall c :: c in t ==> 'A' <= c <= 'Z' || c == ' '
    ensures TitleLine(t)
  {
    forall i | 0 <= i < |t| ensures ToUpperCase(t)[i] == t[i] {
      assert t[i] in t;
    }
    assert ToUpperCase(t) == t;
    var h := t + ":";
    assert forall c :: c in h ==> c in t || c == ':';
    assert AllSafe(h);
    assert t[0] in t && h[0] == t[0] && h[|h| - 1] == ':';
    NoDoubleSpaceConcat(t, ":");
  }

  lemma PartiesTitle()
    ensures TitleLine("PARTIES")
  {
    CapitalTitle("PARTIES");
  }

  lemma ScopeTitle()
    ensures TitleLine("SCOPE OF WORK")
  {
    CapitalTitle("SCOPE OF WORK");
  }

  lemma PaymentTitle()
    ensures TitleLine("PAYMENT TERMS")
  {
    CapitalTitle("PAYMENT TERMS");
  }

  lemma DeliveryTitle()
    ensures TitleLine("DELIVERY TIME")
  {
    CapitalTitle("DELIVERY TIME");
  }

  lemma PenaltiesTitle()
    ensures TitleLine("PENALTIES")
  {
    CapitalTitle("PENALTIES");
  }

  lemma ConfidentialityTitle()
    ensures TitleLine("CONFIDENTIALITY")
  {
    CapitalTitle("CONFIDENTIALITY");
  }

  lemma TerminationTitle()
    ensures TitleLine("TERMINATION")
  {
    CapitalTitle("TERMINATION");
  }

  lemma GoverningLawTitle()
    ensures TitleLine("GOVERNING LAW")
  {
    CapitalTitle("GOVERNING LAW");
  }

  lemma SignaturesTitle()
    ensures TitleLine("SIGNATURES")
  {
    CapitalTitle("SIGNATURES");
  }

  lemma TemplateTitlesDistinct(objectives: Objectives, date: string)
    ensures DistinctTitles(ContractTemplate(objectives, date).sections)
  {
    var secs := ContractTemplate(objectives, date).sections;
    var keys := KeysOf(Listed(secs));
    TemplateListed(objectives, date);
    TemplateKeysDistinct();
    forall i, j | 0 <= i < j < |secs| ensures secs[i].title != secs[j].title {
      assert secs[i].title == keys[i] == TemplateKeys[i + 1];
      assert secs[j].title == keys[j] == TemplateKeys[j + 1];
    }
  }

  /** No two keys of the template are the same. */
  lemma TemplateKeysDistinct()
    ensures forall i, j :: 0 <= i < j < |TemplateKeys| ==> TemplateKeys[i] != TemplateKeys[j]
  {
    forall i, j | 0 <= i < j < |TemplateKeys| ensures TemplateKeys[i] != TemplateKeys[j] {
      var a, b := TemplateKeys[i], TemplateKeys[j];
      assert |a| != |b| || a[0] != b[0];
    }
  }

  /** The template is a layout of clean lines whose titles are upper case and
      distinct and whose body lines are not headings. */
  lemma TemplateWellFormed(objectives: Objectives, date: string)
    requires DateOk(date)
    ensures var doc := ContractTemplate(objectives, date);
      WellFormedLayout(doc) && DistinctTitles(doc.sections) && CleanLayout(doc)
  {
    var doc := ContractTemplate(objectives, date);
    PreambleBodyLines(date);
    TemplateSectionLines(objectives, date);
    TemplateTitlesDistinct(objectives, date);
    assert doc.preamble[0] == "CONTRACT AGREEMENT";
    LinesOfTemplate(doc);
  }

  /** A section whose title and lines all follow the template's conventions. */
  predicate SectionLines(s: Section)
  {
    TitleLine(s.title) && forall x :: x in s.body ==> BodyLine(x)
  }

  lemma NineSectionLines(secs: seq<Section>, s1: Section, s2: Section, s3: Section, s4: Section,
                         s5: Section, s6: Section, s7: Section, s8: Section, s9: Section)
    requires secs == [s1, s2, s3, s4, s5, s6, s7, s8, s9]
    requires SectionLines(s1) && SectionLines(s2) && SectionLines(s3) && SectionLines(s4)
    requires SectionLines(s5) && SectionLines(s6) && SectionLines(s7) && SectionLines(s8) && SectionLines(s9)
    ensures forall i :: 0 <= i < |secs| ==>
      TitleLine(secs[i].title) && forall x :: x in secs[i].body ==> BodyLine(x)
  {
    forall i | 0 <= i < |secs| ensures SectionLines(secs[i]) {
    }
  }

  lemma TemplateSectionLines(objectives: Objectives, date: string)
    ensures var secs := ContractTemplate(objectives, date).sections;
      forall i :: 0 <= i < |secs| ==>
        TitleLine(secs[i].title) && forall x :: x in secs[i].body ==> BodyLine(x)
  {
    PartiesBodyLines();
    ScopeBodyLines();
    PaymentBodyLines(objectives.paymentDays);
    DeliveryBodyLines(objectives.deliveryDays);
    PenaltiesBodyLines(objectives.penaltyRate);
    ConfidentialityBodyLines();
    TerminationBodyLines();
    GoverningLawBodyLines();
    SignaturesBodyLines();
    PartiesTitle();
    ScopeTitle();
    PaymentTitle();
    DeliveryTitle();
    PenaltiesTitle();
    ConfidentialityTitle();
    TerminationTitle();
    GoverningLawTitle();
    SignaturesTitle();
    NineSectionLines(ContractTemplate(objectives, date).sections,
      Section("PARTIES", PartiesBody),
      Section("SCOPE OF WORK", ScopeBody),
      Section("PAYMENT TERMS", PaymentBody(objectives.paymentDays)),
      Section("DELIVERY TIME", DeliveryBody(objectives.deliveryDays)),
      Section("PENALTIES", PenaltiesBody(objectives.penaltyRate)),
      Section("CONFIDENTIALITY", ConfidentialityBody),
      Section("TERMINATION", TerminationBody),
      Section("GOVERNING LAW", GoverningLawBody),
      Section("SIGNATURES", SignaturesBody));
  }

  /** The conditions on the titles and lines, gathered into the layout's. */
  lemma LinesOfTemplate(doc: Layout)
    requires forall x :: x in doc.preamble ==> BodyLine(x)
    requires forall i :: 0 <= i < |doc.sections| ==>
      TitleLine(doc.sections[i].title) && forall x :: x in doc.sections[i].body ==> BodyLine(x)
    requires doc.preamble != [] && doc.preamble[0] != []
    requires doc.sections != [] && |doc.sections[|doc.sections| - 1].body| >= 1
    requires var body := doc.sections[|doc.sections| - 1].body; body[|body| - 1] != []
    ensures WellFormedLayout(doc) && CleanLayout(doc)
  {
    forall i | 0 <= i < |doc.sections| ensures BodyLines(doc.sections[i].body) {
      var body := doc.sections[i].body;
      forall k | 0 <= k < |body| ensures !IsHeading(body[k]) {
        assert body[k] in body;
      }
    }
    forall k | 0 <= k < |doc.preamble| ensures !IsHeading(doc.preamble[k]) {
      assert doc.preamble[k] in doc.preamble;
    }
  }

  /** The keys of the parsed template, in order. */
  const TemplateKeys: seq<string> := [
    Preamble, "PARTIES", "SCOPE OF WORK", "PAYMENT TERMS", "DELIVERY TIME",
    "PENALTIES", "CONFIDENTIALITY", "TERMINATION", "GOVERNING LAW", "SIGNATURES"
  ]

  /** A body line that mentions `sub` makes the stored body mention it. */
  lemma BodyMentions(body: seq<string>, i: nat, sub: string)
    requires i < |body| && body[i] != [] && Contains(body[i], sub)
    ensures Contains(Join(NonBlank(body), "\n\n"), sub)
  {
    NonBlankKeeps(body, i);
    var k :| 0 <= k < |NonBlank(body)| && NonBlank(body)[k] == body[i];
    JoinContains(NonBlank(body), "\n\n", k);
    ContainsTrans(Join(NonBlank(body), "\n\n"), body[i], sub);
  }

  lemma PreambleNonBlank(date: string)
    requires DateOk(date)
    ensures NonBlank(PreambleBody(date)) == ["CONTRACT AGREEMENT", DateSentence(date)]
  {
    var p := PreambleBody(date);
    assert p[..3][..2][..1][..0] == [];
    assert NonBlank(p[..3][..2][..1]) == ["CONTRACT AGREEMENT"];
    assert NonBlank(p[..3][..2]) == ["CONTRACT AGREEMENT"];
    assert NonBlank(p[..3]) == ["CONTRACT AGREEMENT", DateSentence(date)];
  }

  /** The first line of the section's body is not blank. */
  predicate OpensWithText(s: Section)
  {
    s.body != [] && s.body[0] != []
  }

  lemma ListedNine(secs: seq<Section>, s1: Section, s2: Section, s3: Section, s4: Section,
                   s5: Section, s6: Section, s7: Section, s8: Section, s9: Section)
    requires secs == [s1, s2, s3, s4, s5, s6, s7, s8, s9]
    requires OpensWithText(s1) && OpensWithText(s2) && OpensWithText(s3) && OpensWithText(s4)
    requires OpensWithText(s5) && OpensWithText(s6) && OpensWithText(s7) && OpensWithText(s8) && OpensWithText(s9)
    ensures |Listed(secs)| == 9
    ensures forall i :: 0 <= i < 9 ==> Listed(secs)[i] == Entry(secs[i])
    ensures KeysOf(Listed(secs)) == [s1.title, s2.title, s3.title, s4.title, s5.title, s6.title, s7.title, s8.title, s9.title]
  {
    NineNonBlank(secs, s1, s2, s3, s4, s5, s6, s7, s8, s9);
    ListedAll(secs);
  }

  lemma NineNonBlank(secs: seq<Section>, s1: Section, s2: Section, s3: Section, s4: Section,
                     s5: Section, s6: Section, s7: Section, s8: Section, s9: Section)
    requires secs == [s1, s2, s3, s4, s5, s6, s7, s8, s9]
    requires OpensWithText(s1) && OpensWithText(s2) && OpensWithText(s3) && OpensWithText(s4)
    requires OpensWithText(s5) && OpensWithText(s6) && OpensWithText(s7) && OpensWithText(s8) && OpensWithText(s9)
    ensures forall i :: 0 <= i < |secs| ==> NonBlank(secs[i].body) != []
  {
    forall i | 0 <= i < |secs| ensures NonBlank(secs[i].body) != [] {
      assert OpensWithText(secs[i]);
      NonBlankKeeps(secs[i].body, 0);
    }
  }

  /** Every section of the template has a non-blank body, so every one of them
      is stored, in order. */
  lemma TemplateListed(objectives: Objectives, date: string)
    ensures var secs := ContractTemplate(objectives, date).sections;
      && |Listed(secs)| == 9
      && (forall i :: 0 <= i < 9 ==> Listed(secs)[i] == Entry(secs[i]))
      && KeysOf(Listed(secs)) == TemplateKeys[1..]
  {
    ListedNine(ContractTemplate(objectives, date).sections,
      Section("PARTIES", PartiesBody),
      Section("SCOPE OF WORK", ScopeBody),
      Section("PAYMENT TERMS", PaymentBody(objectives.paymentDays)),
      Section("DELIVERY TIME", DeliveryBody(objectives.deliveryDays)),
      Section("PENALTIES", PenaltiesBody(objectives.penaltyRate)),
      Section("CONFIDENTIALITY", ConfidentialityBody),
      Section("TERMINATION", TerminationBody),
      Section("GOVERNING LAW", GoverningLawBody),
      Section("SIGNATURES", SignaturesBody));
  }

  lemma PaymentMentions(days: int)
    ensures Contains(Join(NonBlank(PaymentBody(days)), "\n\n"), IntToString(days))
  {
    var a := "The Client shall pay the " + "Provider the agreed amount " + "within ";
    var b := " days of receiving the " + "invoice.";
    ContainsMiddle(a, IntToString(days), b);
    assert PaymentBody(days)[0] == a + IntToString(days) + b;
    BodyMentions(PaymentBody(days), 0, IntToString(days));
  }

  lemma DeliveryMentions(days: int)
    ensures Contains(Join(NonBlank(DeliveryBody(days)), "\n\n"), IntToString(days))
  {
    var a := "The Provider shall deliver " + "all products and complete " + "all services within ";
    var b := " days from the date of this " + "agreement.";
    ContainsMiddle(a, IntToString(days), b);
    assert DeliveryBody(days)[0] == a + IntToString(days) + b;
    BodyMentions(DeliveryBody(days), 0, IntToString(days));
  }

  lemma PenaltiesMention(rate: int)
    ensures Contains(Join(NonBlank(PenaltiesBody(rate)), "\n\n"), IntToString(rate))
  {
    var a := "In case of late delivery, a " + "penalty of ";
    var b := "% of the total contract " + "value will be applied for " + "each week of delay.";
    ContainsMiddle(a, IntToString(rate), b);
    assert PenaltiesBody(rate)[0] == a + IntToString(rate) + b;
    BodyMentions(PenaltiesBody(rate), 0, IntToString(rate));
  }

  lemma StoredPreamble(date: string)
    requires DateOk(date)
    ensures Stored([], Preamble, PreambleBody(date)) == [(Preamble, "CONTRACT AGREEMENT\n\n" + DateSentence(date))]
  {
    PreambleNonBlank(date);
    var lines := ["CONTRACT AGREEMENT", DateSentence(date)];
    assert Join(lines, "\n\n") == "CONTRACT AGREEMENT" + "\n\n" + DateSentence(date) by {
      assert lines[1..] == [DateSentence(date)];
    }
    assert "CONTRACT AGREEMENT" + "\n\n" == "CONTRACT AGREEMENT\n\n";
    assert Preamble !in KeysOf([]);
  }

  /** The parsed template: the preamble entry, then every section in order. */
  lemma TemplateParse(objectives: Objectives, date: string)
    requires DateOk(date)
    ensures var secs := ContractTemplate(objectives, date).sections;
      Parse(GenericContract(objectives, date))
        == [(Preamble, "CONTRACT AGREEMENT\n\n" + DateSentence(date))] + Listed(secs)
  {
    var doc := ContractTemplate(objectives, date);
    TemplateWellFormed(objectives, date);
    ParseFramedLayout(doc);
    StoredPreamble(date);
  }

  /** The sections stored from the template, by position. */
  lemma TemplateEntries(objectives: Objectives, date: string)
    ensures var l := Listed(ContractTemplate(objectives, date).sections);
      && KeysOf(l) == TemplateKeys[1..]
      && Contains(l[2].1, IntToString(objectives.paymentDays))
      && Contains(l[3].1, IntToString(objectives.deliveryDays))
      && Contains(l[4].1, IntToString(objectives.penaltyRate))
      && l[8].1 == SignaturesBody[0]
  {
    var l := Listed(ContractTemplate(objectives, date).sections);
    var secs := ContractTemplate(objectives, date).sections;
    TemplateListed(objectives, date);
    assert l[2] == Entry(secs[2]) && l[3] == Entry(secs[3]) && l[4] == Entry(secs[4]) && l[8] == Entry(secs[8]);
    PaymentMentions(objectives.paymentDays);
    DeliveryMentions(objectives.deliveryDays);
    PenaltiesMention(objectives.penaltyRate);
    assert NonBlank(SignaturesBody) == SignaturesBody by {
      assert SignaturesBody[..0] == [];
    }
  }

  /** The contract the negotiation runs on parses into the preamble and the nine
      sections, in template order: the preamble holds the title line and the
      date sentence, the payment, delivery and penalty sections mention their
      objective, and the SIGNATURES section keeps its one sentence. */
  lemma TemplateSections(objectives: Objectives, date: string)
    requires DateOk(date)
    ensures var d := Parse(GenericContract(objectives, date));
      && KeysOf(d) == TemplateKeys
      && d[0].1 == "CONTRACT AGREEMENT\n\n" + DateSentence(date)
      && Contains(d[3].1, IntToString(objectives.paymentDays))
      && Contains(d[4].1, IntToString(objectives.deliveryDays))
      && Contains(d[5].1, IntToString(objectives.penaltyRate))
      && d[9].1 == SignaturesBody[0]
  {
    TemplateParse(objectives, date);
    TemplateEntries(objectives, date);
    EntriesAfterPreamble(Parse(GenericContract(objectives, date)),
      (Preamble, "CONTRACT AGREEMENT\n\n" + DateSentence(date)),
      Listed(ContractTemplate(objectives, date).sections),
      IntToString(objectives.paymentDays), IntToString(objectives.deliveryDays),
      IntToString(objectives.penaltyRate), SignaturesBody[0]);
  }

  /** The preamble's entry shifts the stored sections one place along. */
  lemma EntriesAfterPreamble(d: Properties, first: (string, string), l: Properties,
                             pay: string, delivery: string, penalty: string, signed: string)
    requires d == [first] + l && first.0 == Preamble
    requires KeysOf(l) == TemplateKeys[1..]
    requires Contains(l[2].1, pay) && Contains(l[3].1, delivery) && Contains(l[4].1, penalty)
    requires l[8].1 == signed
    ensures KeysOf(d) == TemplateKeys && d[0] == first
    ensures Contains(d[3].1, pay) && Contains(d[4].1, delivery) && Contains(d[5].1, penalty)
    ensures d[9].1 == signed
  {
    assert |KeysOf(l)| == 9;
    KeysOfConcat([first], l);
  }

  // ---------------------------------------------------------------------------
  // The generic contract through generateMarkdown

  lemma TemplateKeysAt()
    ensures TemplateKeys[3] == "PAYMENT TERMS" && TemplateKeys[4] == "DELIVERY TIME"
    ensures TemplateKeys[5] == "PENALTIES" && TemplateKeys[9] == "SIGNATURES"
  {
  }

  lemma TemplateKeysNamed()
    ensures forall i :: 0 <= i < |TemplateKeys| ==> !IsArrayIndex(TemplateKeys[i])
  {
    forall i | 0 <= i < |TemplateKeys| ensures !IsArrayIndex(TemplateKeys[i]) {
      var k := TemplateKeys[i];
      assert !IsDigit(k[0]);
    }
  }

  /** No title of the template is numeric, so the sections are rendered in
      template order. */
  lemma TemplateEntriesInOrder(objectives: Objectives, date: string)
    requires DateOk(date)
    ensures var d := Parse(GenericContract(objectives, date));
      Entries(d) == d
  {
    var d := Parse(GenericContract(objectives, date));
    TemplateSections(objectives, date);
    TemplateKeysNamed();
    forall i | 0 <= i < |d| ensures !IsArrayIndex(d[i].0) {
      assert d[i].0 == KeysOf(d)[i];
    }
    EntriesInCreationOrder(d);
  }

  lemma SignaturesHeadingText()
    ensures "## " + "SIGNATURES" + "\n\n" == SignatureHeading
  {
  }

  /** A section's block contains its heading line. */
  lemma BlockHeading(title: string, body: string, sel: Selection)
    ensures Contains(SectionBlock(title, body, sel), "## " + title + "\n\n")
  {
    HeadingInBlock("## " + title + "\n\n", FormatClauseText(ChosenText(title, body, sel)));
  }

  lemma HeadingInBlock(heading: string, text: string)
    ensures Contains(heading + text + "\n\n", heading)
  {
    assert (heading + text + "\n\n")[..|heading|] == heading;
    PrefixContained(heading + text + "\n\n", heading);
  }

  /** Sections with a SIGNATURES entry give a document with a SIGNATURES
      heading before its closing block. */
  lemma SignaturesEntryRendered(d: Properties, sel: Selection, i: nat)
    requires i < |d| && d[i].0 == "SIGNATURES" && Entries(d) == d
    ensures var m := MarkdownOf(d, sel);
      && EndsWith(m, SignatureBlock)
      && Contains(m[..|m| - |SignatureBlock|], SignatureHeading)
  {
    var blocks := Rendered(d, sel);
    var m := MarkdownOf(d, sel);
    var block := blocks[i];
    BlockHeading(d[i].0, d[i].1, sel);
    SignaturesHeadingText();
    ConcatContains(blocks, i);
    ContainsTrans(Concat(blocks), block, SignatureHeading);
    ContainsWrapped(Header, Concat(blocks), "", SignatureHeading);
    assert m[..|m| - |SignatureBlock|] == Header + Concat(blocks) + "";
    PrefixSuffix(Header, Concat(blocks), SignatureBlock);
  }

  /** The template has its own SIGNATURES section, so the document built from it
      carries a SIGNATURES heading before the fixed closing block as well. */
  lemma TemplateSignedTwice(objectives: Objectives, date: string, sel: Selection)
    requires DateOk(date)
    ensures var m := Markdown(GenericContract(objectives, date), sel);
      && EndsWith(m, SignatureBlock)
      && Contains(m[..|m| - |SignatureBlock|], SignatureHeading)
  {
    var d := Parse(GenericContract(objectives, date));
    TemplateSections(objectives, date);
    TemplateEntriesInOrder(objectives, date);
    assert d[9].0 == KeysOf(d)[9];
    SignaturesEntryRendered(d, sel, 9);
  }

  lemma MissingFirstChar(s: string, sub: string)
    requires sub != [] && sub[0] !in s
    ensures !Contains(s, sub)
  {
    forall i | 0 <= i <= |s| - |sub| ensures !StartsWith(s[i..], sub) {
      assert s[i] in s;
    }
  }

  lemma PrefixContained(s: string, sub: string)
    requires StartsWith(s, sub)
    ensures Contains(s, sub)
  {
    assert s[0..] == s;
  }

  /** Which of the keywords PAYMENT, DELIVERY and PENALTIES each of the three
      objective sections' titles contains. */
  lemma PaymentTitleKeyword()
    ensures Contains("PAYMENT TERMS", "PAYMENT")
  {
    PrefixContained("PAYMENT TERMS", "PAYMENT");
  }

  lemma DeliveryTitleKeyword()
    ensures !Contains("DELIVERY TIME", "PAYMENT") && Contains("DELIVERY TIME", "DELIVERY")
  {
    MissingFirstChar("DELIVERY TIME", "PAYMENT");
    PrefixContained("DELIVERY TIME", "DELIVERY");
  }

  lemma PenaltiesTitleKeyword()
    ensures !Contains("PENALTIES", "PAYMENT") && !Contains("PENALTIES", "DELIVERY") && Contains("PENALTIES", "PENALTIES")
  {
    var s := "PENALTIES";
    forall i | 0 <= i <= |s| - 7 ensures !StartsWith(s[i..], "PAYMENT") {
      assert s[i] != 'P' || s[i + 1] != 'A';
    }
    MissingFirstChar(s, "DELIVERY");
    PrefixContained(s, "PENALTIES");
  }

  /** A PAYMENT TERMS entry shows the payment selection when there is one. */
  lemma PaymentSectionRendered(d: Properties, sel: Selection, i: nat)
    requires i < |d| && d[i].0 == "PAYMENT TERMS" && sel.payment != []
    ensures Contains(MarkdownOf(d, sel), "## " + "PAYMENT TERMS" + "\n\n" + FormatClauseText(sel.payment) + "\n\n")
  {
    PaymentTitleKeyword();
    SectionRendered(d, sel, d[i].0, d[i].1);
  }

  /** A DELIVERY TIME entry shows the delivery selection when there is one. */
  lemma DeliverySectionRendered(d: Properties, sel: Selection, i: nat)
    requires i < |d| && d[i].0 == "DELIVERY TIME" && sel.delivery != []
    ensures Contains(MarkdownOf(d, sel), "## " + "DELIVERY TIME" + "\n\n" + FormatClauseText(sel.delivery) + "\n\n")
  {
    DeliveryTitleKeyword();
    SectionRendered(d, sel, d[i].0, d[i].1);
  }

  /** A PENALTIES entry shows the penalty selection when there is one. */
  lemma PenaltiesSectionRendered(d: Properties, sel: Selection, i: nat)
    requires i < |d| && d[i].0 == "PENALTIES" && sel.penalty != []
    ensures Contains(MarkdownOf(d, sel), "## " + "PENALTIES" + "\n\n" + FormatClauseText(sel.penalty) + "\n\n")
  {
    PenaltiesTitleKeyword();
    SectionRendered(d, sel, d[i].0, d[i].1);
  }

  /** In the document built from the generic contract, each non-empty selected
      clause is rendered, formatted, under the template's section for it. */
  lemma TemplateSelections(objectives: Objectives, date: string, sel: Selection)
    requires DateOk(date)
    ensures var m := Markdown(GenericContract(objectives, date), sel);
      && (sel.payment != [] ==> Contains(m, "## " + "PAYMENT TERMS" + "\n\n" + FormatClauseText(sel.payment) + "\n\n"))
      && (sel.delivery != [] ==> Contains(m, "## " + "DELIVERY TIME" + "\n\n" + FormatClauseText(sel.delivery) + "\n\n"))
      && (sel.penalty != [] ==> Contains(m, "## " + "PENALTIES" + "\n\n" + FormatClauseText(sel.penalty) + "\n\n"))
  {
    var d := Parse(GenericContract(objectives, date));
    TemplateSections(objectives, date);
    assert d[3].0 == KeysOf(d)[3] && d[4].0 == KeysOf(d)[4] && d[5].0 == KeysOf(d)[5];
    TemplateKeysAt();
    if sel.payment != [] {
      PaymentSectionRendered(d, sel, 3);
    }
    if sel.delivery != [] {
      DeliverySectionRendered(d, sel, 4);
    }
    if sel.penalty != [] {
      PenaltiesSectionRendered(d, sel, 5);
    }
  }

  // ---------------------------------------------------------------------------
  // extractTextFromFile

  /** An uploaded file: its name, and whether the PDF reader and the DOCX reader
      accept its content. */
  datatype UploadedFile = UploadedFile(name: string, validPdf: bool, validDocx: bool)

  datatype Extraction = Extracted(text: string) | ExtractionFailed(message: string)

  const DocumentInvalid: string := "The document format is invalid or corrupted."

  /** `extractTextFromFile`: the lower-cased name picks the reader; an
      unsupported extension and a reader that rejects the content fail alike,
      with one message. */
  function ExtractTextFromFile(file: UploadedFile): (r: Extraction)
    ensures r.Extracted? <==>
      || (EndsWith(ToLowerCase(file.name), ".pdf") && file.validPdf)
      || (EndsWith(ToLowerCase(file.name), ".docx") && file.validDocx)
    ensures r.ExtractionFailed? ==> r.message == DocumentInvalid
    ensures r.Extracted? ==> r.text in {"Valid PDF document", "Valid DOCX document"}
  {
    var fileName := ToLowerCase(file.name);
    if EndsWith(fileName, ".pdf") then
      assert !EndsWith(fileName, ".docx") by {
        assert fileName[|fileName| - 1] == 'f';
      }
      if file.validPdf then Extracted("Valid PDF document") else ExtractionFailed(DocumentInvalid)
    else if EndsWith(fileName, ".docx") then
      if file.validDocx then Extracted("Valid DOCX document") else ExtractionFailed(DocumentInvalid)
    else ExtractionFailed(DocumentInvalid)
  }

  /** The extension is matched without regard to case. */
  lemma ExtensionCaseInsensitive(file: UploadedFile)
    ensures ExtractTextFromFile(file.(name := ToUpperCase(file.name))) == ExtractTextFromFile(file)
  {
    LowerIgnoresCase(file.name);
  }

  /** A `.pdf` name is only ever checked as PDF and a `.docx` name only as DOCX;
      any other name fails whatever the content. */
  lemma ExtensionDispatch(file: UploadedFile)
    ensures EndsWith(ToLowerCase(file.name), ".pdf")
      ==> ExtractTextFromFile(file) == (if file.validPdf then Extracted("Valid PDF document") else ExtractionFailed(DocumentInvalid))
    ensures EndsWith(ToLowerCase(file.name), ".docx")
      ==> ExtractTextFromFile(file) == (if file.validDocx then Extracted("Valid DOCX document") else ExtractionFailed(DocumentInvalid))
    ensures !EndsWith(ToLowerCase(file.name), ".pdf") && !EndsWith(ToLowerCase(file.name), ".docx")
      ==> ExtractTextFromFile(file) == ExtractionFailed(DocumentInvalid)
  {
    var fileName := ToLowerCase(file.name);
    if EndsWith(fileName, ".docx") {
      assert fileName[|fileName| - 1] == 'x';
    }
  }

  // ---------------------------------------------------------------------------
  // POST /api/negotiate

  /** The form: unreadable, or the file (if any) and each objective as `Number`
      reads it, `None` standing for NaN. */
  datatype NegotiateRequest =
    | UnreadableForm
    | Form(file: Option<UploadedFile>, paymentDays: Option<int>, deliveryDays: Option<int>, penaltyRate: Option<int>)

  const DocumentRejected: string := "Failed to process the document. Please ensure it is a valid PDF or DOCX file."

  predicate ObjectivesValid(req: NegotiateRequest)
    requires req.Form?
  {
    req.paymentDays.Some? && req.deliveryDays.Some? && req.penaltyRate.Some?
  }

  function ObjectivesOf(req: NegotiateRequest): Objectives
    requires req.Form? && ObjectivesValid(req)
  {
    Objectives(req.paymentDays.value, req.deliveryDays.value, req.penaltyRate.value)
  }

  /** `POST`: the first failing check decides the response; the uploaded file
      is only checked, and the negotiation runs on the generic contract built
      from the objectives and the date. */
  function NegotiateResponse(req: NegotiateRequest, date: string, service: ChatRequest -> Reply): (r: Response)
    ensures r.status in {200, 400, 500}
    ensures r.status == 500 <==> req.UnreadableForm?
    ensures r.status == 500 ==> r.body == ErrorBody("Failed to process contract")
    ensures req.Form? && req.file.None? ==> r == Error(400, "No file uploaded")
    ensures req.Form? && req.file.Some? && !ObjectivesValid(req) ==> r == Error(400, "Invalid objectives provided")
    ensures req.Form? && req.file.Some? && ObjectivesValid(req) && ExtractTextFromFile(req.file.value).ExtractionFailed?
      ==> r == Error(400, DocumentRejected)
    ensures r.status == 200 <==>
      req.Form? && req.file.Some? && ObjectivesValid(req) && ExtractTextFromFile(req.file.value).Extracted?
    ensures r.status == 200 ==>
      var objectives := ObjectivesOf(req);
      var text := GenericContract(objectives, date);
      r.body == NegotiationBody(Suggestions(text, objectives, service), text)
  {
    match req
    case UnreadableForm => Error(500, "Failed to process contract")
    case Form(file, paymentDays, deliveryDays, penaltyRate) =>
      if file.None? then Error(400, "No file uploaded")
      else if !ObjectivesValid(req) then Error(400, "Invalid objectives provided")
      else match ExtractTextFromFile(file.value)
        case ExtractionFailed(_) => Error(400, DocumentRejected)
        case Extracted(_) =>
          var objectives := ObjectivesOf(req);
          var genericContractText := GenericContract(objectives, date);
          Response(200, NegotiationBody(Suggestions(genericContractText, objectives, service), genericContractText))
  }

  /** The uploaded content is never used: two accepted uploads with the same
      objectives get the same answer. */
  lemma UploadIgnored(f1: UploadedFile, f2: UploadedFile, paymentDays: Option<int>, deliveryDays: Option<int>,
                      penaltyRate: Option<int>, date: string, service: ChatRequest -> Reply)
    requires ExtractTextFromFile(f1).Extracted? && ExtractTextFromFile(f2).Extracted?
    ensures NegotiateResponse(Form(Some(f1), paymentDays, deliveryDays, penaltyRate), date, service)
         == NegotiateResponse(Form(Some(f2), paymentDays, deliveryDays, penaltyRate), date, service)
  {
  }

  /** A successful negotiation answers three suggestions, payment, delivery and
      penalty in that order, each computed from a request whose user message ends
      with the generic contract; that contract parses into the template's
      sections, with each objective in its own section. */
  lemma NegotiationOutcome(req: NegotiateRequest, date: string, service: ChatRequest -> Reply)
    requires DateOk(date)
    requires NegotiateResponse(req, date, service).status == 200
    ensures var body := NegotiateResponse(req, date, service).body;
      var objectives := ObjectivesOf(req);
      && |body.suggestions| == 3
      && body.suggestions[0].field == Payment && body.suggestions[1].field == Delivery && body.suggestions[2].field == Penalty
      && (forall f :: EndsWith(RequestFor(f, body.contractText, objectives).messages[1].content, body.contractText))
      && var d := Parse(body.contractText);
      && KeysOf(d) == TemplateKeys
      && Contains(d[3].1, IntToString(objectives.paymentDays))
      && Contains(d[4].1, IntToString(objectives.deliveryDays))
      && Contains(d[5].1, IntToString(objectives.penaltyRate))
  {
    var objectives := ObjectivesOf(req);
    var text := GenericContract(objectives, date);
    TemplateSections(objectives, date);
    forall f ensures EndsWith(RequestFor(f, text, objectives).messages[1].content, text) {
      RequestShape(text, Prompt(f, objectives));
    }
  }
}
