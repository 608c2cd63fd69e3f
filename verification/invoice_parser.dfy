/**
 * `intelligent_parse` of backend/app.py: the heuristics that turn the OCR
 * text of an invoice, and that text cut into paragraphs, into a record of
 * seven fields. The regular expressions are not interpreted: each search
 * is a function-valued field of `Patterns`, so what is verified is which
 * paragraph and which match feed which field, and in what order the
 * patterns are tried.
 */
module InvoiceParser {
  import opened Wrappers
  import opened Strings

  /** The record `intelligent_parse` returns, one member per key; None is
      JSON `null`. */
  datatype ParsedInvoice = ParsedInvoice(
    supplierName: Option<string>, supplierAddress: Option<string>,
    customerName: Option<string>, customerAddress: Option<string>,
    invoiceId: Option<string>, invoiceDate: Option<string>, totalAmount: Option<string>)

  const UnwantedKeywords: seq<string> := ["phone", "e-mail", "gst", "www", "payment voucher", "page"]
  const MaxAddressLines: nat := 5

  /** The searches `intelligent_parse` makes, each giving the group it uses. */
  datatype Patterns = Patterns(
    billTo: string -> bool,                    // bill-to / billed-to / ship-to / company name, anywhere in a paragraph
    quotedReceiptNo: string -> Option<string>, // group 1 of `"Receipt No." , "<id>"`
    invoiceNo: string -> Option<string>,       // group 1 of `invoice|receipt no <id>`
    quotedDocumentDate: string -> Option<string>, // group 1 of `"Document Date" , "<date>"`
    dateLike: string -> Option<string>,        // group 0 of a day-month-year date
    paymentAmount: string -> Option<string>,   // group 1 of `Payment Amount INR <amount>`
    amounts: string -> seq<string>,            // every amount with two decimals, in order
    formatMax: seq<string> -> string)          // the largest amount, as a float, formatted with two decimals

  /** A line the address cleaner keeps: not blank, and free of every
      unwanted keyword, compared in lower case. */
  predicate IsAddressLine(line: string)
    ensures IsAddressLine(line) ==>
              (exists k :: 0 <= k < |line| && !IsSpace(line[k])) &&
              forall w :: 0 <= w < |UnwantedKeywords| ==> !Contains(Lower(line), UnwantedKeywords[w])
    ensures ((exists k :: 0 <= k < |line| && !IsSpace(line[k])) &&
             forall w :: 0 <= w < |UnwantedKeywords| ==> !Contains(Lower(line), UnwantedKeywords[w])) ==>
              IsAddressLine(line)
  {
    Strip(line) != "" && !ContainsAny(Lower(line), UnwantedKeywords)
  }

  /** `any(kw in s for kw in keywords)`: some keyword occurs in `s`. */
  predicate ContainsAny(s: string, keywords: seq<string>)
    ensures ContainsAny(s, keywords) <==> exists k :: 0 <= k < |keywords| && Contains(s, keywords[k])
    decreases |keywords|
  {
    if keywords == [] then false
    else
      assert forall k :: 0 < k < |keywords| ==> keywords[k] == keywords[1..][k - 1];
      Contains(s, keywords[0]) || ContainsAny(s, keywords[1..])
  }

  /** The list comprehension of `clean_address_block`. */
  function AddressLines(lines: seq<string>): seq<string>
  {
    Filter(lines, IsAddressLine)
  }

  /** `clean_address_block(paragraph)`: None for an empty paragraph,
      otherwise the first five address lines joined by line breaks. */
  function CleanAddressBlock(paragraph: string): (block: Option<string>)
    ensures block.None? <==> paragraph == ""
  {
    if paragraph == "" then None
    else Some(Join(Take(AddressLines(Split(paragraph, '\n')), MaxAddressLines), "\n"))
  }

  /** The cleaned block of a non-empty paragraph is empty exactly when no
      line of the paragraph is an address line. */
  lemma CleanAddressBlockEmpty(paragraph: string)
    requires paragraph != ""
    ensures CleanAddressBlock(paragraph) == Some("") ==>
              forall i :: 0 <= i < |Split(paragraph, '\n')| ==> !IsAddressLine(Split(paragraph, '\n')[i])
    ensures (forall i :: 0 <= i < |Split(paragraph, '\n')| ==> !IsAddressLine(Split(paragraph, '\n')[i])) ==>
              CleanAddressBlock(paragraph) == Some("")
  {
    var lines := Split(paragraph, '\n');
    assert CleanAddressBlock(paragraph) == Some(Join(Take(Filter(lines, IsAddressLine), MaxAddressLines), "\n"));
    JoinFilterEmpty(lines, IsAddressLine, MaxAddressLines, "\n");
  }

  /** The lines of a non-empty cleaned block are lines of the paragraph, in
      their order, at most five, each non-blank and free of unwanted keywords. */
  lemma CleanAddressBlockLines(paragraph: string)
    requires paragraph != "" && CleanAddressBlock(paragraph) != Some("")
    ensures var out := Split(CleanAddressBlock(paragraph).value, '\n');
            && out == Take(AddressLines(Split(paragraph, '\n')), MaxAddressLines)
            && IsSubsequence(out, Split(paragraph, '\n'))
            && |out| <= MaxAddressLines
            && forall i :: 0 <= i < |out| ==> IsAddressLine(out[i])
  {
    var lines := Split(paragraph, '\n');
    var all := AddressLines(lines);
    var kept := Take(all, MaxAddressLines);
    SubsequencePrefix(all, lines, |kept|);
    forall i | 0 <= i < |kept| ensures '\n' !in kept[i] {
      SubsequenceMembers(kept, lines, kept[i]);
    }
    SplitJoin(kept, '\n');
  }

  /** The position of the first paragraph the bill-to search matches. */
  function FirstBillTo(paragraphs: seq<string>, billTo: string -> bool): (k: Option<nat>)
    ensures k.Some? ==> k.value < |paragraphs| && billTo(paragraphs[k.value]) &&
                        forall j :: 0 <= j < k.value ==> !billTo(paragraphs[j])
    ensures k.None? ==> forall j :: 0 <= j < |paragraphs| ==> !billTo(paragraphs[j])
    decreases |paragraphs|
  {
    if paragraphs == [] then None
    else if billTo(paragraphs[0]) then Some(0)
    else match FirstBillTo(paragraphs[1..], billTo)
      case None => None
      case Some(k) => Some(k + 1)
  }

  /** The customer block: the first paragraph naming a bill-to party, else the second. */
  function CustomerBlock(paragraphs: seq<string>, billTo: string -> bool): (block: string)
    requires |paragraphs| > 1
    ensures forall k :: (0 <= k < |paragraphs| && billTo(paragraphs[k]) &&
                         forall j :: 0 <= j < k ==> !billTo(paragraphs[j])) ==> block == paragraphs[k]
    ensures (forall j :: 0 <= j < |paragraphs| ==> !billTo(paragraphs[j])) ==> block == paragraphs[1]
  {
    match FirstBillTo(paragraphs, billTo)
    case Some(k) => paragraphs[k]
    case None => paragraphs[1]
  }

  /** The search loop of `intelligent_parse`: the second paragraph by
      default, replaced by the first paragraph the bill-to search matches. */
  method FindCustomerBlock(paragraphs: seq<string>, billTo: string -> bool) returns (customerBlock: string)
    requires |paragraphs| > 1
    ensures customerBlock == CustomerBlock(paragraphs, billTo)
  {
    customerBlock := paragraphs[1];
    var i := 0;
    while i < |paragraphs|
      invariant 0 <= i <= |paragraphs|
      invariant forall j :: 0 <= j < i ==> !billTo(paragraphs[j])
      invariant customerBlock == paragraphs[1]
    {
      if billTo(paragraphs[i]) {
        customerBlock := paragraphs[i];
        break;
      }
      i := i + 1;
    }
  }

  /** A captured group with line breaks turned into spaces, then stripped:
      the result is the slice of the group between its leading and trailing
      whitespace runs, with every line break in it read as a space; so no
      line break is left, and it neither starts nor ends with whitespace. */
  function Tidy(group: string): (r: string)
    ensures var g := ReplaceChar(group, '\n', ' ');
            var a := SkipSpaces(g, 0);
            && a + |r| <= |group|
            && (forall k :: 0 <= k < |r| ==> r[k] == if group[a + k] == '\n' then ' ' else group[a + k])
            && (forall k :: 0 <= k < a ==> IsSpace(g[k]))
            && (forall k :: a + |r| <= k < |g| ==> IsSpace(g[k]))
    ensures '\n' !in r
    ensures r != [] ==> !IsSpace(r[0]) && !IsSpace(r[|r| - 1])
  {
    Strip(ReplaceChar(group, '\n', ' '))
  }

  /** The paragraph heuristics of `intelligent_parse`: the supplier from the
      first paragraph, the customer from the bill-to paragraph (or the
      second), each as a first line and a cleaned address block. */
  method ParseParties(paragraphs: seq<string>, billTo: string -> bool)
    returns (supplierName: Option<string>, supplierAddress: Option<string>,
             customerName: Option<string>, customerAddress: Option<string>)
    ensures paragraphs == [] ==> supplierName == None && supplierAddress == None
    ensures paragraphs != [] ==>
              && supplierName == Some(Strip(FirstLine(paragraphs[0])))
              && supplierAddress == CleanAddressBlock(paragraphs[0])
    ensures |paragraphs| <= 1 ==> customerName == None && customerAddress == None
    ensures |paragraphs| > 1 ==>
              && customerName == Some(Strip(FirstLine(CustomerBlock(paragraphs, billTo))))
              && customerAddress == CleanAddressBlock(CustomerBlock(paragraphs, billTo))
  {
    supplierName, supplierAddress, customerName, customerAddress := None, None, None, None;

    if paragraphs != [] {
      supplierName := Some(Strip(FirstLine(paragraphs[0])));
      supplierAddress := CleanAddressBlock(paragraphs[0]);
    }

    if |paragraphs| > 1 {
      var customerBlock := FindCustomerBlock(paragraphs, billTo);
      customerName := Some(Strip(FirstLine(customerBlock)));
      customerAddress := CleanAddressBlock(customerBlock);
    }
  }

  /** `intelligent_parse(text, paragraphs)`. */
  method IntelligentParse(text: string, paragraphs: seq<string>, pat: Patterns)
    returns (data: ParsedInvoice)
    ensures paragraphs == [] ==> data.supplierName == None && data.supplierAddress == None
    ensures paragraphs != [] ==>
              && data.supplierName == Some(Strip(FirstLine(paragraphs[0])))
              && data.supplierAddress == CleanAddressBlock(paragraphs[0])
    ensures |paragraphs| <= 1 ==> data.customerName == None && data.customerAddress == None
    ensures |paragraphs| > 1 ==>
              && data.customerName == Some(Strip(FirstLine(CustomerBlock(paragraphs, pat.billTo))))
              && data.customerAddress == CleanAddressBlock(CustomerBlock(paragraphs, pat.billTo))
    ensures pat.quotedReceiptNo(text).Some? ==> data.invoiceId == Some(Tidy(pat.quotedReceiptNo(text).value))
    ensures pat.quotedReceiptNo(text).None? ==> data.invoiceId == pat.invoiceNo(text)
    ensures pat.quotedDocumentDate(text).Some? ==> data.invoiceDate == Some(Tidy(pat.quotedDocumentDate(text).value))
    ensures pat.quotedDocumentDate(text).None? ==> data.invoiceDate == pat.dateLike(text)
    ensures pat.paymentAmount(text).Some? ==> data.totalAmount == pat.paymentAmount(text)
    ensures pat.paymentAmount(text).None? && pat.amounts(text) != [] ==>
              data.totalAmount == Some(pat.formatMax(pat.amounts(text)))
    ensures pat.paymentAmount(text).None? && pat.amounts(text) == [] ==> data.totalAmount == None
  {
    var supplierName, supplierAddress, customerName, customerAddress := ParseParties(paragraphs, pat.billTo);

    // The other keys start out as None; each search below fills in what it finds.
    var invoiceId, invoiceDate, totalAmount := None, None, None;

    var idMatch := pat.quotedReceiptNo(text);
    if idMatch.Some? {
      invoiceId := Some(Tidy(idMatch.value));
    } else {
      idMatch := pat.invoiceNo(text);
      if idMatch.Some? {
        invoiceId := idMatch;
      }
    }

    var dateMatch := pat.quotedDocumentDate(text);
    if dateMatch.Some? {
      invoiceDate := Some(Tidy(dateMatch.value));
    } else {
      dateMatch := pat.dateLike(text);
      if dateMatch.Some? {
        invoiceDate := dateMatch;
      }
    }

    var amountMatch := pat.paymentAmount(text);
    if amountMatch.Some? {
      totalAmount := amountMatch;
    } else {
      var amounts := pat.amounts(text);
      if amounts != [] {
        totalAmount := Some(pat.formatMax(amounts));
      }
    }

    data := ParsedInvoice(supplierName, supplierAddress, customerName, customerAddress,
                          invoiceId, invoiceDate, totalAmount);
  }
}
