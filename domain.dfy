/** The pagination loop of src/opensrs/domain.rs,
    `OpenSrsClient::get_domains_by_expiredate`.

    The call to the server (`send_request`: serialise, sign, POST, parse) is
    replaced by a script of its outcomes: the k-th call returns `script[k]`. */
module Domain {
  import opened Wrappers
  import opened Strings
  import opened Types
  import opened Errors

  // ---------------------------------------------------------------------
  // Dates
  // ---------------------------------------------------------------------

  type Year = y: nat | y <= 9999
  type Month = m: nat | 1 <= m <= 12 witness 1
  type Day = d: nat | 1 <= d <= 31 witness 1

  /** A calendar date (chrono's `NaiveDate`, for the years 0 to 9999). */
  datatype Date = Date(year: Year, month: Month, day: Day)

  function Zeros(n: nat): (r: string)
    ensures |r| == n && AllDigits(r)
  {
    if n == 0 then [] else Zeros(n - 1) + "0"
  }

  /** The decimal rendering of `n`, padded with zeros on the left to `width`. */
  function Padded(n: nat, width: nat): (r: string)
    ensures AllDigits(r) && |r| >= width
  {
    var d := Decimal(n);
    if |d| >= width then d else Zeros(width - |d|) + d
  }

  /** `date.format("%Y-%m-%d")`. */
  function FormatDate(date: Date): (r: string)
    ensures |r| == 10 && r[4] == '-' && r[7] == '-'
    ensures AllDigits(r[..4]) && AllDigits(r[5..7]) && AllDigits(r[8..])
  {
    var y, m, d := Padded(date.year, 4), Padded(date.month, 2), Padded(date.day, 2);
    PaddedWidth(date.year, 4);
    PaddedWidth(date.month, 2);
    PaddedWidth(date.day, 2);
    FormatPieces(y, m, d);
    y + "-" + m + "-" + d
  }

  /** A value below 10^width is padded to exactly `width` digits. */
  lemma PaddedWidth(n: nat, width: nat)
    requires 1 <= width && n < Pow10(width)
    ensures |Padded(n, width)| == width
  {
    DecimalFits(n, width);
  }

  lemma FormatPieces(y: string, m: string, d: string)
    requires |y| == 4 && |m| == 2 && |d| == 2
    ensures var r := y + "-" + m + "-" + d;
      |r| == 10 && r[4] == '-' && r[7] == '-' && r[..4] == y && r[5..7] == m && r[8..] == d
  {
    var r := y + "-" + m + "-" + d;
    assert r[..4] == y;
    assert r[5..7] == m;
    assert r[8..] == d;
  }

  function Pow10(n: nat): (p: nat)
    ensures p >= 1
  {
    if n == 0 then 1 else 10 * Pow10(n - 1)
  }

  /** A value below 10^width has at most `width` decimal digits. */
  lemma {:induction false} DecimalFits(n: nat, width: nat)
    requires 1 <= width && n < Pow10(width)
    ensures |Decimal(n)| <= width
    decreases width
  {
    if n >= 10 {
      assert width >= 2;
      assert n / 10 < Pow10(width - 1);
      DecimalFits(n / 10, width - 1);
    }
  }

  lemma {:induction false} ZerosValue(n: nat)
    ensures DigitsValue(Zeros(n)) == 0
  {
    if n > 0 {
      assert Zeros(n)[..n - 1] == Zeros(n - 1);
      ZerosValue(n - 1);
    }
  }

  /** Leading zeros do not change the value of a digit string. */
  lemma {:induction false} LeadingZerosValue(n: nat, d: string)
    requires AllDigits(d)
    ensures DigitsValue(Zeros(n) + d) == DigitsValue(d)
    decreases |d|
  {
    var s := Zeros(n) + d;
    if d == [] {
      assert s == Zeros(n);
      ZerosValue(n);
    } else {
      assert s[..|s| - 1] == Zeros(n) + d[..|d| - 1];
      assert s[|s| - 1] == d[|d| - 1];
      LeadingZerosValue(n, d[..|d| - 1]);
    }
  }

  lemma PaddedValue(n: nat, width: nat)
    ensures DigitsValue(Padded(n, width)) == n
  {
    DecimalValue(n);
    if |Decimal(n)| < width {
      LeadingZerosValue(width - |Decimal(n)|, Decimal(n));
    }
  }

  /** The three fields can be read back from the formatted date: the year from
      its first four digits, the month and the day from the two digits after
      each dash. */
  lemma FormatDateRoundTrip(date: Date)
    ensures var r := FormatDate(date);
      DigitsValue(r[..4]) == date.year && DigitsValue(r[5..7]) == date.month
      && DigitsValue(r[8..]) == date.day
  {
    var y, m, d := Padded(date.year, 4), Padded(date.month, 2), Padded(date.day, 2);
    PaddedWidth(date.year, 4);
    PaddedWidth(date.month, 2);
    PaddedWidth(date.day, 2);
    FormatPieces(y, m, d);
    PaddedValue(date.year, 4);
    PaddedValue(date.month, 2);
    PaddedValue(date.day, 2);
  }

  /** Different dates are formatted differently. */
  lemma FormatDateInjective(a: Date, b: Date)
    ensures FormatDate(a) == FormatDate(b) <==> a == b
  {
    FormatDateRoundTrip(a);
    FormatDateRoundTrip(b);
  }

  // ---------------------------------------------------------------------
  // Pages
  // ---------------------------------------------------------------------

  /** The page size every request asks for. */
  const PageSize: U32 := 40

  /** The request for one page. */
  function PageRequest(expFrom: Date, expTo: Date, page: U32): (r: Request)
    ensures r.protocol == "XCP" && r.obj == "DOMAIN" && r.action == "GET_DOMAINS_BY_EXPIREDATE"
    ensures r.attributes.limit == Some(PageSize) && r.attributes.page == Some(page)
    ensures r.attributes.expFrom == FormatDate(expFrom) && r.attributes.expTo == FormatDate(expTo)
  {
    Request("XCP", "DOMAIN", "GET_DOMAINS_BY_EXPIREDATE",
            RequestAttrs(FormatDate(expFrom), FormatDate(expTo), Some(PageSize), Some(page)))
  }

  /** What one call to the server returns. */
  type Outcome = Result<Response, OpenSrsError>

  /** An outcome after which no further page is requested: a transport or
      parse error, an unsuccessful response, or a last page. */
  predicate Stops(o: Outcome) {
    o.Failure? || !o.value.isSuccess || !o.value.attributes.MorePages()
  }

  predicate Terminates(script: seq<Outcome>) {
    exists k :: 0 <= k < |script| && Stops(script[k])
  }

  /** The index of the first stopping outcome: the last page requested. */
  function FirstStop(script: seq<Outcome>): (k: nat)
    requires Terminates(script)
    ensures k < |script| && Stops(script[k])
    ensures forall j :: 0 <= j < k ==> !Stops(script[j])
  {
    if Stops(script[0]) then 0
    else
      assert Terminates(script[1..]) by {
        var k :| 0 <= k < |script| && Stops(script[k]);
        assert k > 0 && Stops(script[1..][k - 1]);
      }
      FirstStop(script[1..]) + 1
  }

  /** The domains of the successful pages, in page order. */
  function Domains(pages: seq<Outcome>): seq<ExpiringDomain>
  {
    if pages == [] then []
    else
      var last := pages[|pages| - 1];
      Domains(pages[..|pages| - 1]) + (if last.Success? then last.value.attributes.expDomains else [])
  }

  /** One more page adds its domains at the end. */
  lemma DomainsStep(pages: seq<Outcome>, k: nat)
    requires k < |pages|
    ensures Domains(pages[..k + 1]) ==
      Domains(pages[..k]) + (if pages[k].Success? then pages[k].value.attributes.expDomains else [])
  {
    assert pages[..k + 1][..k] == pages[..k];
  }

  /** The result of the whole loop, page by page: the error of the last page
      requested, or the domains of all pages requested. */
  function Listing(script: seq<Outcome>): Result<seq<ExpiringDomain>, OpenSrsError>
    requires Terminates(script)
  {
    var k := FirstStop(script);
    match script[k]
    case Failure(e) => Failure(e)
    case Success(response) =>
      if !response.isSuccess then Failure(ApiError(response.responseCode, response.responseText))
      else Success(Domains(script[..k + 1]))
  }

  // ---------------------------------------------------------------------
  // get_domains_by_expiredate
  // ---------------------------------------------------------------------

  /** `get_domains_by_expiredate`. Besides the result it returns the requests
      sent, in order. */
  method GetDomainsByExpireDate(expFrom: Date, expTo: Date, script: seq<Outcome>)
    returns (result: Result<seq<ExpiringDomain>, OpenSrsError>, sent: seq<Request>)
    requires Terminates(script)
    requires FirstStop(script) < U32_LIMIT
    ensures |sent| == FirstStop(script) + 1
    ensures forall k :: 0 <= k < |sent| ==> sent[k] == PageRequest(expFrom, expTo, k)
    ensures result == Listing(script)
  {
    var allDomains: seq<ExpiringDomain> := [];
    var page: U32 := 0;
    sent := [];
    while true
      invariant page <= FirstStop(script)
      invariant |sent| == page
      invariant forall k :: 0 <= k < page ==> sent[k] == PageRequest(expFrom, expTo, k)
      invariant allDomains == Domains(script[..page])
      decreases FirstStop(script) - page
    {
      var request := Request("XCP", "DOMAIN", "GET_DOMAINS_BY_EXPIREDATE",
                             RequestAttrs(FormatDate(expFrom), FormatDate(expTo), Some(PageSize), Some(page)));
      assert request == PageRequest(expFrom, expTo, page);
      sent := sent + [request];

      var outcome := script[page];
      if outcome.Failure? {
        assert page == FirstStop(script);
        result := Failure(outcome.error);
        return;
      }
      var response := outcome.value;

      if !response.isSuccess {
        assert page == FirstStop(script);
        result := Failure(ApiError(response.responseCode, response.responseText));
        return;
      }

      DomainsStep(script, page);
      allDomains := allDomains + response.attributes.expDomains;

      if response.attributes.remainder == 0 {
        assert page == FirstStop(script);
        break;
      }

      page := page + 1;
    }
    result := Success(allDomains);
  }

  // ---------------------------------------------------------------------
  // Properties of the listing
  // ---------------------------------------------------------------------

  /** Every page before the last one requested was a successful page that
      announced more pages; the last one is an error or a final page. */
  lemma PagesBeforeLastHadMore(script: seq<Outcome>, j: nat)
    requires Terminates(script) && j < FirstStop(script)
    ensures script[j].Success? && script[j].value.isSuccess && script[j].value.attributes.remainder != 0
  {
  }

  /** The listing succeeds exactly when the last page requested is a successful
      page with nothing remaining. */
  lemma ListingSuccessIff(script: seq<Outcome>)
    requires Terminates(script)
    ensures var last := script[FirstStop(script)];
      Listing(script).Success? <==>
        last.Success? && last.value.isSuccess && last.value.attributes.remainder == 0
  {
  }

  /** The error of the last page requested is returned unchanged; an
      unsuccessful page gives `ApiError` with its code and text, and the
      domains of the earlier pages are dropped. */
  lemma ListingErrors(script: seq<Outcome>)
    requires Terminates(script)
    ensures var last := script[FirstStop(script)];
      (last.Failure? ==> Listing(script) == Failure(last.error))
      && (last.Success? && !last.value.isSuccess ==>
            Listing(script) == Failure(ApiError(last.value.responseCode, last.value.responseText)))
  {
  }

  lemma {:induction false} DomainsConcat(a: seq<Outcome>, b: seq<Outcome>)
    ensures Domains(a + b) == Domains(a) + Domains(b)
    decreases |b|
  {
    if b == [] {
      assert a + b == a;
    } else {
      var n := |b| - 1;
      assert (a + b)[..|a + b| - 1] == a + b[..n];
      assert (a + b)[|a + b| - 1] == b[n];
      DomainsConcat(a, b[..n]);
    }
  }

  /** On success the result is the pages' domains one page after another: the
      domains of the earlier pages come first, those of the last page at the
      end. */
  lemma ListingAppendsLastPage(script: seq<Outcome>)
    requires Terminates(script) && Listing(script).Success?
    ensures var k := FirstStop(script);
      Listing(script).value == Domains(script[..k]) + script[k].value.attributes.expDomains
  {
    var k := FirstStop(script);
    assert script[..k + 1][..k] == script[..k];
  }

  /** Each page adds its own domains and no others, so the listing is as long
      as the pages' lists together. */
  function DomainCount(pages: seq<Outcome>): nat {
    if pages == [] then 0
    else
      var last := pages[|pages| - 1];
      DomainCount(pages[..|pages| - 1]) + (if last.Success? then |last.value.attributes.expDomains| else 0)
  }

  lemma {:induction false} DomainsLength(pages: seq<Outcome>)
    ensures |Domains(pages)| == DomainCount(pages)
    decreases |pages|
  {
    if pages != [] {
      DomainsLength(pages[..|pages| - 1]);
    }
  }

  lemma FirstStopOfExtension(script: seq<Outcome>, extra: seq<Outcome>)
    requires Terminates(script)
    ensures Terminates(script + extra)
    ensures FirstStop(script + extra) == FirstStop(script)
  {
    var k := FirstStop(script);
    var s := script + extra;
    assert forall j :: 0 <= j <= k ==> s[j] == script[j];
    FirstStopUnique(s, k);
  }

  /** The first stopping index is determined by the two facts its contract states. */
  lemma FirstStopUnique(script: seq<Outcome>, k: nat)
    requires k < |script| && Stops(script[k])
    requires forall j :: 0 <= j < k ==> !Stops(script[j])
    ensures Terminates(script) && FirstStop(script) == k
  {
    assert Terminates(script);
  }

  /** Nothing after the last page requested matters: no further page is asked for. */
  lemma ListingIgnoresLaterOutcomes(script: seq<Outcome>, extra: seq<Outcome>)
    requires Terminates(script)
    ensures Terminates(script + extra) && Listing(script + extra) == Listing(script)
  {
    FirstStopOfExtension(script, extra);
    var k := FirstStop(script);
    var s := script + extra;
    assert s[..k + 1] == script[..k + 1];
    assert s[k] == script[k];
  }
}
