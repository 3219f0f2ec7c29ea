# accordo contract pipeline, modelled in Dafny

accordo is a contract-negotiation web application. The user uploads a
contract (PDF or DOCX) together with three negotiation objectives: payment
within N days, delivery within N days, and a penalty rate in percent.
`POST /api/negotiate` checks the upload, builds a generic contract from a
fixed template carrying the objectives, and asks a language model for three
alternative formulations of the payment, delivery and penalty clauses.
The user then picks one alternative per clause. `POST /api/generate` checks
that selection and hands the contract text and the chosen clauses to
`PDFBuilder.generatePDF`. That function:

- sanitizes the text;
- splits it into titled sections (a heading is an upper-case line ending in `:`);
- renders Markdown, replacing the PAYMENT, DELIVERY and PENALTIES sections
  with the chosen clauses and formatting every clause one sentence per paragraph;
- appends a signature block;
- returns the download URL of the PDF.

The model is split into these modules:

- `Types` and `Http`: the records of `types/index.ts` and the JSON responses.
- `Strings`: the JavaScript string built-ins the code relies on: `trim`,
  `split`, `join`, `toUpperCase`/`toLowerCase`, `includes`,
  `startsWith`/`endsWith` and decimal printing of numbers.
- `JsObject`: a plain JavaScript object used as a dictionary. It keeps its
  keys in creation order, and `Object.entries` lists array-index keys first.
- `Sanitizer`, `Sections`, `Formatter`, `PdfBuilder`: `services/PDFBuilder.ts`.
- `Negotiator`: `services/Negotiator.ts`. The OpenAI chat service is a
  function from the request to its reply.
- `GenerateRoute`, `NegotiateRoute`: the two API routes.

Where the source loops and mutates, the model does too:

- `parseContractSections` is a method with a loop over the lines.
- `generateMarkdown` is a method that appends to a string.
- `generateSuggestions` is a method that pushes three results.

Each such method is proved against a function that states what it computes.
The properties are then proved about those functions.

Main results:

- sanitizing is idempotent, and its fixed points are exactly the "clean" strings;
- a document written as headings and body lines parses back to exactly its
  sections, in order, with a repeated heading keeping its first position;
- formatting sentences joined by `". "` gives one paragraph per sentence, each
  followed by a period (a last sentence that already ends in a period comes out
  ending in `..`);
- sanitizing keeps every visible character, in order, turning only angle
  brackets into `_`, and yields the empty string exactly when the text has
  nothing visible;
- every selected clause appears in the rendered Markdown under its section heading;
- the download URL round-trips to its timestamp;
- each route answers with the first failing check, and with the exact error
  message the source uses;
- the negotiation contract parses into the ten template sections, and those
  sections carry the three objectives.

## Model

| member | source | states |
|---|---|---|
| Sanitizer.StripControl | services/PDFBuilder.ts:112 | no removed control character is left; every remaining character was in the input; text without control characters is unchanged |
| Sanitizer.StripControlKeeps | services/PDFBuilder.ts:112 | no character of the removed class is left, and every other character is kept, in its order |
| Sanitizer.EscapeAngleBrackets | services/PDFBuilder.ts:113 | the length is kept; at every position a `<` or `>` becomes `_` and any other character is unchanged |
| Sanitizer.CollapseBlanks | services/PDFBuilder.ts:114 | runs of spaces and tabs become one space: no two spaces in a row, no tab left, empty iff the input is empty |
| Sanitizer.CollapseBlanksKeeps | services/PDFBuilder.ts:114 | every character other than a space or a tab is kept, in its order |
| Sanitizer.CollapseBlanksSqueezes | services/PDFBuilder.ts:114 | collapsing equals a left-to-right reading that turns the first blank of each run into one space, drops the rest of the run and copies every other character |
| Sanitizer.ReplaceCrLfFacts | services/PDFBuilder.ts:115 | replacing `\r\n` empties only the empty text, adds no new character, and leaves text without `\r` unchanged |
| Sanitizer.ReplaceCrLfPair | services/PDFBuilder.ts:115 | each `\r\n` becomes `\n`, and the text on either side of it is replaced on its own |
| Sanitizer.ReplaceCrLfNoPair | services/PDFBuilder.ts:115 | text with no `\r` directly followed by `\n` is unchanged |
| Sanitizer.ReplaceCrLfFilter | services/PDFBuilder.ts:115 | every character other than `\r` and `\n` is kept, in its order |
| Sanitizer.ReplaceCr | services/PDFBuilder.ts:115 | the length is kept; at every position a `\r` becomes `\n` and any other character is unchanged; no `\r` is left; the no-double-space property is kept |
| Sanitizer.Sanitize | services/PDFBuilder.ts:110-117 | the result is clean: trimmed, with no control character, angle bracket, tab, `\r` or double space |
| Sanitizer.SanitizeKeepsInk | services/PDFBuilder.ts:110-117 | the visible characters of the result are those of the input, in order, with `<` and `>` turned into `_`: only white space and removed controls change |
| Sanitizer.SanitizeEmptyIff | services/PDFBuilder.ts:110-117 | the result is empty exactly when the input has no visible character |
| Sanitizer.SanitizeFixpoint | services/PDFBuilder.ts:110-117 | sanitizing leaves a string unchanged iff the string is already clean |
| Sanitizer.SanitizeIdempotent | services/PDFBuilder.ts:110-117 | sanitizing twice is the same as sanitizing once |
| Sanitizer.SanitizeFramed | services/PDFBuilder.ts:110-117 | a clean text framed by a leading newline and trailing blanks sanitizes back to itself |
| Strings.TrimFixpoint | services/PDFBuilder.ts:116 | `trim` leaves a string unchanged iff it neither starts nor ends with whitespace |
| Strings.TrimEmptyIff | services/PDFBuilder.ts:83 | a string trims to the empty, falsy string iff every character is whitespace, so exactly the all-blank pieces are filtered out |
| Strings.JoinSplit | services/PDFBuilder.ts:91 | joining the pieces of `split(sep)` with `sep` gives back the text |
| Strings.SplitJoin | services/PDFBuilder.ts:91 | splitting a join of separator-free pieces gives back the pieces |
| Strings.UpperUnchangedIff | services/PDFBuilder.ts:96 | `toUpperCase` leaves a line unchanged iff it has no lower-case letter |
| Strings.LowerIgnoresCase | app/api/negotiate/route.ts:90 | lower-casing forgets any earlier upper-casing, and is idempotent |
| Strings.IntToStringInjective | services/Negotiator.ts:59 | different numbers print differently |
| Sections.HeadingIff | services/PDFBuilder.ts:96-99 | a line is a heading iff it has no lower-case letter and ends with `:`; the title is the line without that colon |
| Sections.TitleHeading | services/PDFBuilder.ts:96-99 | an upper-case title followed by `:` is a heading whose title is that title |
| Sections.PreambleNotATitle | services/PDFBuilder.ts:93-99 | no heading yields the title `Preamble`, which contains lower-case letters |
| Sections.ParseContractSections | services/PDFBuilder.ts:89-107 | the loop computes `Parse(text)`; the keys are distinct and no stored body is empty |
| Sections.RunConcat | services/PDFBuilder.ts:95-104 | processing lines `a + b` equals processing `a`, then `b` |
| Sections.ParseWellFormed | services/PDFBuilder.ts:89-107 | every parsed key is distinct and is `Preamble` or a title of one of the lines; every body is non-empty |
| Sections.ParseLayout | services/PDFBuilder.ts:89-107 | the lines of a preamble and titled sections parse to the expected object, built section by section with overwriting |
| Sections.ParseLayoutDistinct | services/PDFBuilder.ts:89-107 | with distinct titles, the parse is the preamble entry followed by one entry per section, in order, each body being the non-blank lines joined by a blank line |
| Sections.StoredSectionsDistinct | services/PDFBuilder.ts:95-105 | when the titles are distinct and none is a key yet, storing the sections one after another appends one entry per section with a non-blank body, in document order |
| Sections.RepeatedTitleKeepsPosition | services/PDFBuilder.ts:98 | a title stored twice keeps its first position and takes its second body |
| Sections.ContractLinesOfJoin | services/PDFBuilder.ts:90-91 | clean lines joined by `\n` are split and trimmed back to the same lines |
| Sections.ParseFramedLayout | services/PDFBuilder.ts:89-107 | a clean layout framed by newlines and blanks, as a template literal writes it, parses to its sections |
| JsObject.Set | services/PDFBuilder.ts:98 | assigning a property sets that key, leaves every other key unchanged, keeps the position of an existing key and appends a new one |
| JsObject.SetOverwrites | services/PDFBuilder.ts:98 | assigning an existing key replaces its value in place |
| JsObject.SetKeepsKeysDistinct | services/PDFBuilder.ts:98 | assigning keeps the keys distinct |
| JsObject.ArrayIndexIff | services/PDFBuilder.ts:58 | a key is an array index iff it is the decimal form of some n below 2^32 - 1 |
| JsObject.Entries | services/PDFBuilder.ts:58 | `Object.entries` is a permutation of the properties: the array-index keys come first in ascending order, then the other keys in creation order |
| JsObject.EntriesInCreationOrder | services/PDFBuilder.ts:58 | without array-index keys, `Object.entries` keeps creation order |
| JsObject.InsertByIndexSorted | services/PDFBuilder.ts:58 | inserting an array-index property into properties sorted by numeric key keeps them sorted |
| JsObject.PartitionMultiset | services/PDFBuilder.ts:58 | index and named properties together are exactly the properties |
| Formatter.SplitSentences | services/PDFBuilder.ts:82 | splitting on `/\.\s+/` gives at least one piece; the first piece is a prefix of the text; no piece contains a period followed by whitespace |
| Formatter.SplitSentencesAround | services/PDFBuilder.ts:82 | text without a period followed by whitespace, then `". "`, then text not starting with whitespace, splits into that text followed by the pieces of the rest |
| Formatter.FormatShape | services/PDFBuilder.ts:79-86 | the formatted clause is its paragraphs joined by a blank line; each paragraph is trimmed, non-empty and ends in a period; the result is empty iff there are no paragraphs |
| Formatter.SplitJoinedSentences | services/PDFBuilder.ts:82 | splitting sentences joined by `". "` gives back the sentences |
| Formatter.FormatJoinedSentences | services/PDFBuilder.ts:79-86 | clean sentences joined by `". "` format to one paragraph per sentence, each followed by a period |
| Formatter.TrailingPeriodDoubled | services/PDFBuilder.ts:82-84 | a text whose last sentence already ends in a period comes out ending in `..` |
| PdfBuilder.GenerateMarkdown | services/PDFBuilder.ts:48-76 | the Markdown is the rendering of the parsed sections; it starts with the `# CONTRACT` header and ends with the signature block |
| PdfBuilder.RenderSections | services/PDFBuilder.ts:53-75 | the appending loop yields the header, one block per entry, then the signature block |
| PdfBuilder.ChosenTextRule | services/PDFBuilder.ts:60-68 | a title with PAYMENT takes the payment selection when it is non-empty, else DELIVERY, else PENALTIES, and otherwise the original body |
| PdfBuilder.SectionRendered | services/PDFBuilder.ts:58-69 | every parsed section appears in the Markdown as its heading and its formatted chosen text |
| PdfBuilder.MarkdownOfLayout | services/PDFBuilder.ts:52-58 | for a well-formed document without numeric titles, the Markdown renders the sections in document order |
| PdfBuilder.TimestampOf | services/PDFBuilder.ts:42 | a URL it accepts starts with the download prefix, ends with `.pdf` and holds a digit run between them |
| PdfBuilder.DownloadUrlRoundTrip | services/PDFBuilder.ts:29-30 | the timestamp can be read back from the download URL, which starts with `/api/download?file=contract_` and ends with `.pdf` |
| PdfBuilder.DownloadUrlInjective | services/PDFBuilder.ts:42 | two timestamps give the same URL iff they are equal |
| PdfBuilder.PdfOutcome | services/PDFBuilder.ts:25-43 | a URL is returned iff rendering the Markdown succeeds, and that URL carries the timestamp |
| PdfBuilder.GeneratePdf | services/PDFBuilder.ts:25-43 | the method returns `PdfOutcome` |
| Negotiator.Fallback | services/Negotiator.ts:136-140 | the fallback keeps the field and has the single suggestion "Error generating suggestions. Please try again." with score 5 |
| Negotiator.GenerateClauseWithLLM | services/Negotiator.ts:104-141 | a parsed reply is passed through under the field; the fallback is returned iff the call fails, the reply is empty or unparseable, or the reply equals the fallback |
| Negotiator.RequestShape | services/Negotiator.ts:110-117 | the request uses gpt-4-turbo in JSON mode, with the system message and a user message of the prompt, `\n\nContract text: ` and the contract |
| Negotiator.BuildRequestInjective | services/Negotiator.ts:114 | for the same contract, different prompts make different requests |
| Negotiator.Suggestions | services/Negotiator.ts:24-47 | three suggestions, for payment, delivery and penalty, in that order |
| Negotiator.GenerateSuggestions | services/Negotiator.ts:20-48 | the pushing method returns `Suggestions`: three results in field order |
| Negotiator.PromptOfObjective | services/Negotiator.ts:57-62 | a prompt contains its objective, and two prompts differing only in the objective are equal iff the objectives are equal |
| Negotiator.PromptDeterminesObjective | services/Negotiator.ts:57-95 | each clause prompt mentions its objective, and it is determined by that objective alone |
| Negotiator.PromptsDistinct | services/Negotiator.ts:57-95 | the payment, delivery and penalty prompts differ from one another |
| Negotiator.RequestsDistinct | services/Negotiator.ts:64-98 | the three clause requests differ from one another |
| Negotiator.CategoriesIndependent | services/Negotiator.ts:24-47 | changing the service's reply to one clause's request changes no other clause's suggestion |
| GenerateRoute.MissingIn | app/api/generate/route.ts:32-33 | the missing fields are exactly the fields whose selection is absent or empty, in the order payment, delivery, penalty |
| GenerateRoute.GenerateResponse | app/api/generate/route.ts:8-54 | the checks run in order with their exact errors: contract text, selected clauses as an object, then the missing list; 200 with the PDF URL iff all pass and rendering succeeds; otherwise 500 "Failed to generate contract" |
| GenerateRoute.ChecksIgnoreRendering | app/api/generate/route.ts:17-40 | a request refused with 400 gets the same answer whatever the timestamp and renderer |
| GenerateRoute.MissingFieldsExtremes | app/api/generate/route.ts:32-40 | nothing is missing iff all three are selected; with none selected, the list is payment, delivery, penalty |
| NegotiateRoute.ExtractTextFromFile | app/api/negotiate/route.ts:84-112 | extraction succeeds iff the lower-cased name ends in `.pdf` with a valid PDF, or in `.docx` with a valid DOCX; every failure reports "The document format is invalid or corrupted." |
| NegotiateRoute.ExtensionCaseInsensitive | app/api/negotiate/route.ts:90 | upper-casing the file name does not change the extraction |
| NegotiateRoute.ExtensionDispatch | app/api/negotiate/route.ts:93-107 | `.pdf` goes to the PDF check, `.docx` to the DOCX check, and any other extension fails |
| NegotiateRoute.NegotiateResponse | app/api/negotiate/route.ts:12-78 | 500 iff the form cannot be read; then, in order, 400 "No file uploaded", 400 "Invalid objectives provided" and the 400 document error; 200 iff every check passes, with the suggestions for and the text of the generic contract |
| NegotiateRoute.UploadIgnored | app/api/negotiate/route.ts:45-51 | any two accepted uploads give the same response, because only the template is used |
| NegotiateRoute.NegotiationOutcome | app/api/negotiate/route.ts:51-63 | a 200 carries three suggestions in field order, each request embeds the contract text, and that text parses into the template sections with the objectives |
| NegotiateRoute.TemplateWellFormed | app/api/negotiate/route.ts:120-161 | the template has a clean preamble, distinct upper-case headings and clean non-heading body lines |
| NegotiateRoute.TemplateParse | app/api/negotiate/route.ts:117-161 | the generic contract parses to the preamble entry followed by one entry per template section |
| NegotiateRoute.TemplateSections | app/api/negotiate/route.ts:117-161 | the parsed keys are Preamble, PARTIES, … SIGNATURES, in order; the payment, delivery and penalty sections contain their objectives |
| NegotiateRoute.TemplateEntriesInOrder | app/api/negotiate/route.ts:125-159 | no template heading is numeric, so `Object.entries` keeps the template order |
| NegotiateRoute.TemplateSignedTwice | app/api/negotiate/route.ts:159-160 | the template's SIGNATURES section is rendered before the builder's own SIGNATURES block, so the Markdown carries that heading twice |
| NegotiateRoute.TemplateSelections | app/api/negotiate/route.ts:131-146 | every non-empty selection appears, formatted, under the matching template heading |

## Left out

- Unicode: case mapping covers ASCII letters only. Whitespace is the
  ECMAScript `WhiteSpace` and `LineTerminator` set as listed characters.
  There is no normalisation or encoding.
- HTML and PDF: `md.render`, `wrapHtml` and the puppeteer `htmlToPdf` are
  reduced to a `render` predicate on the Markdown. Whether a PDF is produced
  is that predicate; the HTML text is not modelled.
- File I/O: the temp directory, `fs` calls and file names on disk are not
  modelled. Only the returned URL is.
- Clock and locale: `Date.now()` and `toLocaleDateString()` are parameters
  (`timestamp`, `date`). The template lemmas assume a non-empty date line
  with no blanks at its ends, no double space and no control characters.
- Objectives as numbers: objectives are integers. `Number(...)` on a form
  field is abstracted to an integer or "not a number"; float formatting is
  not modelled.
- The conversion of form fields to numbers is abstracted. A missing field
  reads as 0, as `Number(null)` does in the source. "Not a number" is the
  absent value.
- JSON decoding: request bodies arrive decoded. A non-string value for
  `contractText` or a clause is not modelled.
- OpenAI: the chat service is a function from requests to replies, so
  it is deterministic. `JSON.parse` is folded into the reply kinds. A
  parsed reply with missing `suggestions` or `scores` fields is not modelled.
- Document parsing: `pdf-parse` and `mammoth` are reduced to two booleans on
  the upload, "valid PDF" and "valid DOCX". The extracted text is never used
  by the source either.
- Concurrency and `async`: every await is taken in order, with no
  interleaving.
- `console.error` logging, the download route, the Next.js runtime and the
  user interface are not part of this model.
