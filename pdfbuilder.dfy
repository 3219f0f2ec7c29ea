/** `PDFBuilder.generateMarkdown` and the URL that `PDFBuilder.generatePDF`
    returns (services/PDFBuilder.ts:25-76). */
module PdfBuilder {
  import opened Types
  import opened Strings
  import opened JsObject
  import opened Sections
  import opened Formatter

  const Header: string := "# CONTRACT\n\n"

  const SignatureHeading: string := "## SIGNATURES\n\n"
  const ClientLine: string := "Client: _______________________   Date: ____________\n\n"
  const ProviderLine: string := "Provider: _____________________   Date: ____________\n\n"

  /** The fixed block that closes every document. */
  const SignatureBlock: string := SignatureHeading + ClientLine + ProviderLine

  /** The text a section is rendered from: the first of the payment, delivery and
      penalty selections whose keyword the title contains (case-sensitively) and
      that is non-empty, otherwise the section's own body. */
  function ChosenText(title: string, body: string, sel: Selection): string
  {
    if Contains(title, "PAYMENT") && sel.payment != [] then sel.payment
    else if Contains(title, "DELIVERY") && sel.delivery != [] then sel.delivery
    else if Contains(title, "PENALTIES") && sel.penalty != [] then sel.penalty
    else body
  }

  /** A section's heading and its formatted text. */
  function SectionBlock(title: string, body: string, sel: Selection): string
  {
    "## " + title + "\n\n" + FormatClauseText(ChosenText(title, body, sel)) + "\n\n"
  }

  /** The block of every entry, in order. */
  function Rendered(entries: Properties, sel: Selection): (r: seq<string>)
    ensures |r| == |entries|
  {
    seq(|entries|, i requires 0 <= i < |entries| => SectionBlock(entries[i].0, entries[i].1, sel))
  }

  /** The blocks written one after the other. */
  function Concat(blocks: seq<string>): string
  {
    if blocks == [] then "" else Concat(blocks[..|blocks| - 1]) + blocks[|blocks| - 1]
  }

  /** The document built from parsed sections. */
  function MarkdownOf(sections: Properties, sel: Selection): string
  {
    Header + Concat(Rendered(Entries(sections), sel)) + SignatureBlock
  }

  /** The document `generateMarkdown` builds from contract text; the
      specification of the method `GenerateMarkdown`. */
  function Markdown(text: string, sel: Selection): string
  {
    MarkdownOf(Parse(text), sel)
  }

  /** `generateMarkdown`: parses the contract, then renders its sections. */
  method GenerateMarkdown(text: string, sel: Selection) returns (markdown: string)
    ensures markdown == Markdown(text, sel)
    ensures StartsWith(markdown, Header) && EndsWith(markdown, SignatureBlock)
  {
    var sections := ParseContractSections(text);
    markdown := RenderSections(sections, sel);
  }

  /** The loop of `generateMarkdown`: the header, one block per section in
      `Object.entries` order, and the signature block. */
  method RenderSections(sections: Properties, sel: Selection) returns (markdown: string)
    ensures markdown == MarkdownOf(sections, sel)
    ensures StartsWith(markdown, Header) && EndsWith(markdown, SignatureBlock)
  {
    markdown := "# CONTRACT\n\n";
    var entries := Entries(sections);
    ghost var blocks: seq<string> := [];
    for k := 0 to |entries|
      invariant |blocks| == k
      invariant forall i :: 0 <= i < k ==> blocks[i] == SectionBlock(entries[i].0, entries[i].1, sel)
      invariant markdown == Header + Concat(blocks)
    {
      var (title, content) := entries[k];
      var heading := "## " + title + "\n\n";
      markdown := markdown + heading;
      var chosen := content;
      if Contains(title, "PAYMENT") && sel.payment != [] {
        chosen := sel.payment;
      } else if Contains(title, "DELIVERY") && sel.delivery != [] {
        chosen := sel.delivery;
      } else if Contains(title, "PENALTIES") && sel.penalty != [] {
        chosen := sel.penalty;
      }
      var formatted := FormatClauseText(chosen);
      markdown := markdown + formatted + "\n\n";
      ConcatSnoc(Header, blocks, heading, formatted);
      BlockAppended(entries, sel, blocks, heading + formatted + "\n\n");
      blocks := blocks + [heading + formatted + "\n\n"];
    }
    assert blocks == Rendered(entries, sel);
    ghost var body := markdown;
    markdown := markdown + "## SIGNATURES\n\n";
    markdown := markdown + "Client: _______________________   Date: ____________\n\n";
    markdown := markdown + "Provider: _____________________   Date: ____________\n\n";
    SignaturesAppended(body, Concat(blocks));
  }

  /** The next block extends the rendered prefix by one entry. */
  lemma BlockAppended(entries: Properties, sel: Selection, blocks: seq<string>, block: string)
    requires |blocks| < |entries|
    requires forall i :: 0 <= i < |blocks| ==> blocks[i] == SectionBlock(entries[i].0, entries[i].1, sel)
    requires block == SectionBlock(entries[|blocks|].0, entries[|blocks|].1, sel)
    ensures forall i :: 0 <= i <= |blocks| ==> (blocks + [block])[i] == SectionBlock(entries[i].0, entries[i].1, sel)
  {
  }

  /** Appending one block, written as the loop writes it. */
  lemma ConcatSnoc(header: string, blocks: seq<string>, heading: string, formatted: string)
    ensures header + Concat(blocks) + heading + formatted + "\n\n"
         == header + Concat(blocks + [heading + formatted + "\n\n"])
  {
    assert (blocks + [heading + formatted + "\n\n"])[..|blocks|] == blocks;
  }

  lemma SignaturesAppended(body: string, all: string)
    requires body == Header + all
    ensures var m := body + "## SIGNATURES\n\n" + "Client: _______________________   Date: ____________\n\n" + "Provider: _____________________   Date: ____________\n\n";
      m == Header + all + SignatureBlock && StartsWith(m, Header) && EndsWith(m, SignatureBlock)
  {
    assert body + SignatureHeading + ClientLine + ProviderLine == body + SignatureBlock;
    PrefixSuffix(Header, all, SignatureBlock);
  }

  lemma PrefixSuffix(a: string, b: string, c: string)
    ensures StartsWith(a + b + c, a) && EndsWith(a + b + c, c)
  {
    assert (a + b + c)[..|a|] == a;
    assert (a + b + c)[|a + b + c| - |c|..] == c;
  }

  lemma {:induction false} ConcatAppend(a: seq<string>, b: seq<string>)
    ensures Concat(a + b) == Concat(a) + Concat(b)
    decreases |b|
  {
    if b == [] {
      assert a + b == a;
    } else {
      var n := |b| - 1;
      assert (a + b)[..|a + b| - 1] == a + b[..n];
      ConcatAppend(a, b[..n]);
    }
  }

  /** Every block appears in the concatenation. */
  lemma ConcatContains(blocks: seq<string>, i: nat)
    requires i < |blocks|
    ensures Contains(Concat(blocks), blocks[i])
  {
    var a := blocks[..i];
    var b := blocks[i + 1..];
    assert blocks == a + [blocks[i]] + b;
    ConcatAppend(a + [blocks[i]], b);
    ConcatAppend(a, [blocks[i]]);
    assert Concat([blocks[i]]) == blocks[i] by {
      assert [blocks[i]][..0] == [];
    }
    ContainsMiddle(Concat(a), blocks[i], Concat(b));
  }

  lemma ContainsWrapped(a: string, all: string, c: string, block: string)
    requires Contains(all, block)
    ensures Contains(a + all + c, block)
  {
    var j :| 0 <= j <= |all| - |block| && StartsWith(all[j..], block);
    assert (a + all + c)[|a| + j..][..|block|] == all[j..][..|block|];
  }

  /** Every stored section is rendered in the document under its own heading,
      from the text `ChosenText` picks for it. */
  lemma SectionRendered(sections: Properties, sel: Selection, title: string, body: string)
    requires (title, body) in sections
    ensures Contains(MarkdownOf(sections, sel), SectionBlock(title, body, sel))
  {
    var entries := Entries(sections);
    assert (title, body) in multiset(entries);
    var i :| 0 <= i < |entries| && entries[i] == (title, body);
    var blocks := Rendered(entries, sel);
    ConcatContains(blocks, i);
    ContainsWrapped(Header, Concat(blocks), SignatureBlock, blocks[i]);
  }

  /** The substitution rule: a title containing PAYMENT takes the payment
      selection whenever that is non-empty, a title with DELIVERY but not PAYMENT
      the delivery selection, and so on; a title containing none of the three
      keywords always keeps its own body. */
  lemma ChosenTextRule(title: string, body: string, sel: Selection)
    ensures Contains(title, "PAYMENT") && sel.payment != [] ==> ChosenText(title, body, sel) == sel.payment
    ensures !Contains(title, "PAYMENT") && Contains(title, "DELIVERY") && sel.delivery != []
      ==> ChosenText(title, body, sel) == sel.delivery
    ensures !Contains(title, "PAYMENT") && !Contains(title, "DELIVERY") && Contains(title, "PENALTIES") && sel.penalty != []
      ==> ChosenText(title, body, sel) == sel.penalty
    ensures !Contains(title, "PAYMENT") && !Contains(title, "DELIVERY") && !Contains(title, "PENALTIES")
      ==> ChosenText(title, body, sel) == body
    ensures ChosenText(title, body, sel) in [sel.payment, sel.delivery, sel.penalty, body]
  {
  }

  /** A contract written as a layout with distinct, non-numeric titles renders
      its sections in document order: the preamble first, then every section
      with a non-blank body. */
  lemma MarkdownOfLayout(doc: Layout, sel: Selection)
    requires WellFormedLayout(doc) && DistinctTitles(doc.sections) && CleanLines(LayoutLines(doc))
    requires forall i :: 0 <= i < |doc.sections| ==> !IsArrayIndex(doc.sections[i].title)
    ensures Markdown(Join(LayoutLines(doc), "\n"), sel)
         == MarkdownOf(Stored([], Preamble, doc.preamble) + Listed(doc.sections), sel)
    ensures Entries(Stored([], Preamble, doc.preamble) + Listed(doc.sections))
         == Stored([], Preamble, doc.preamble) + Listed(doc.sections)
  {
    var d := Stored([], Preamble, doc.preamble) + Listed(doc.sections);
    ParseLayoutTextDistinct(doc);
    NoNumericKeys(doc);
    EntriesInCreationOrder(d);
  }

  lemma NoNumericKeys(doc: Layout)
    requires forall i :: 0 <= i < |doc.sections| ==> !IsArrayIndex(doc.sections[i].title)
    ensures var d := Stored([], Preamble, doc.preamble) + Listed(doc.sections);
      forall i :: 0 <= i < |d| ==> !IsArrayIndex(d[i].0)
  {
    var pre := Stored([], Preamble, doc.preamble);
    var listed := Listed(doc.sections);
    var d := pre + listed;
    KeysOfConcat(pre, listed);
    ListedKeys(doc.sections);
    forall i | 0 <= i < |d| ensures !IsArrayIndex(d[i].0) {
      assert KeysOf(d)[i] == d[i].0;
      if i >= |pre| {
        assert KeysOf(listed)[i - |pre|] == d[i].0;
        assert d[i].0 in KeysOf(listed);
      } else {
        assert NonBlank(doc.preamble) != [];
        assert d[i].0 == Preamble;
        assert !IsDigit('P');
      }
    }
  }

  // ---------------------------------------------------------------------------
  // generatePDF

  /** `contract_${timestamp}`. */
  function FileName(timestamp: nat): string
  {
    "contract_" + NatToString(timestamp)
  }

  /** `/api/download?file=${filename}.pdf`. */
  function DownloadUrl(timestamp: nat): string
  {
    "/api/download?file=" + FileName(timestamp) + ".pdf"
  }

  const UrlPrefix: string := "/api/download?file=contract_"

  /** Reads the timestamp back out of a download URL. */
  function TimestampOf(url: string): (r: Option<nat>)
    ensures r.Some? ==> |url| >= |UrlPrefix| + 5 && AllDigits(url[|UrlPrefix|..|url| - 4])
    ensures r.Some? ==> StartsWith(url, UrlPrefix) && EndsWith(url, ".pdf")
  {
    if |url| >= |UrlPrefix| + 5 && StartsWith(url, UrlPrefix) && EndsWith(url, ".pdf")
       && AllDigits(url[|UrlPrefix|..|url| - 4])
    then Some(DigitsValue(url[|UrlPrefix|..|url| - 4]))
    else None
  }

  /** The URL names the PDF of exactly the timestamp it was generated at. */
  lemma DownloadUrlRoundTrip(timestamp: nat)
    ensures TimestampOf(DownloadUrl(timestamp)) == Some(timestamp)
    ensures StartsWith(DownloadUrl(timestamp), UrlPrefix) && EndsWith(DownloadUrl(timestamp), ".pdf")
  {
    var url := DownloadUrl(timestamp);
    var digits := NatToString(timestamp);
    assert url == UrlPrefix + digits + ".pdf";
    assert url[|UrlPrefix|..|url| - 4] == digits;
    assert url[..|UrlPrefix|] == UrlPrefix;
    assert url[|url| - 4..] == ".pdf";
    DigitsValueOfNatToString(timestamp);
  }

  /** Two generations give the same URL only at the same timestamp. */
  lemma DownloadUrlInjective(a: nat, b: nat)
    ensures DownloadUrl(a) == DownloadUrl(b) <==> a == b
  {
    if DownloadUrl(a) == DownloadUrl(b) {
      DownloadUrlRoundTrip(a);
      DownloadUrlRoundTrip(b);
    }
  }

  /** What `generatePDF` yields: the download URL when the renderer accepts
      the document, `None` when it throws. The URL always carries the
      timestamp the file was named after. The specification of the method
      `GeneratePdf`. */
  function PdfOutcome(text: string, sel: Selection, timestamp: nat, render: string -> bool): (r: Option<string>)
    ensures r.Some? <==> render(Markdown(text, sel))
    ensures r.Some? ==> StartsWith(r.value, UrlPrefix) && TimestampOf(r.value) == Some(timestamp)
  {
    DownloadUrlRoundTrip(timestamp);
    if render(Markdown(text, sel)) then Some(DownloadUrl(timestamp)) else None
  }

  /** `generatePDF`: builds the markdown, hands it to the renderer (markdown-it,
      the HTML file and puppeteer, which the model does not look inside), and
      returns the download URL; `None` stands for the renderer throwing. */
  method GeneratePdf(text: string, sel: Selection, timestamp: nat, render: string -> bool)
    returns (url: Option<string>)
    ensures url == PdfOutcome(text, sel, timestamp, render)
  {
    var filename := "contract_" + NatToString(timestamp);
    var markdown := GenerateMarkdown(text, sel);
    if !render(markdown) {
      return None;
    }
    url := Some("/api/download?file=" + filename + ".pdf");
  }
}
