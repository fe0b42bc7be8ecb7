/** The response half of src/opensrs/xml.rs: `deserialize_response`, an event
    loop over the XML reader's events that fills in a
    GET_DOMAINS_BY_EXPIREDATE response.

    The reader itself (tokenising, entity unescaping) is not modelled: its
    output is given as a sequence of events. Running off the end of the
    sequence is treated like the reader's `Eof`. */
module XmlResponse {
  import opened Wrappers
  import opened Strings
  import opened Types
  import opened Errors

  // ---------------------------------------------------------------------
  // Reader events
  // ---------------------------------------------------------------------

  /** An attribute of a start tag. */
  datatype Attribute = Attribute(key: string, value: string)

  /** The events of `Reader::read_event_into` the loop distinguishes.
      - `Start` carries the tag name and its attributes; `None` stands for an
        attribute the reader could not parse, which the loop skips.
      - `Text` carries the unescaped text; `None` stands for text whose
        unescaping failed, which the loop reads as empty.
      - `Err` is a reader error with its message.
      - `Other` is every event the loop ignores (empty elements, comments,
        CDATA, declarations, processing instructions). */
  datatype Event =
    | Start(name: string, attributes: seq<Option<Attribute>>)
    | Text(content: Option<string>)
    | End(name: string)
    | Eof
    | Err(message: string)
    | Other

  // ---------------------------------------------------------------------
  // The state machine
  // ---------------------------------------------------------------------

  /** The loop's local variables. */
  datatype ParserState = ParserState(
    isSuccess: bool,
    responseCode: string,
    responseText: string,
    page: U32,
    total: U32,
    remainder: U8,
    expDomains: seq<ExpiringDomain>,
    currentKey: string,
    inDataBlock: bool,
    inAttributes: bool,
    inExpDomains: bool,
    currentDomain: Option<ExpiringDomain>)

  /** The values the loop starts from. */
  const Initial := ParserState(false, "", "", 0, 0, 0, [], "", false, false, false, None)

  /** True of a well-formed attribute named `key`. */
  predicate IsKeyAttribute(a: Option<Attribute>) {
    a.Some? && a.value.key == "key"
  }

  /** The current key after scanning the attributes of an `item` start tag:
      every well-formed `key` attribute overwrites it in turn. */
  function KeyAttribute(key: string, attributes: seq<Option<Attribute>>): string
    decreases |attributes|
  {
    if attributes == [] then key
    else
      var last := attributes[|attributes| - 1];
      if IsKeyAttribute(last) then last.value.value
      else KeyAttribute(key, attributes[..|attributes| - 1])
  }

  /** `is_success` is set from text that is "1" or lower-cases to "true". */
  predicate IsTrueText(text: string) {
    text == "1" || ToLower(text) == "true"
  }

  /** `text.parse().unwrap_or(0)`. */
  function ParseOrZero(text: string, limit: nat): (n: nat)
    ensures n < limit || n == 0
  {
    ParseUnsigned(text, limit).GetOr(0)
  }

  /** The keys the text dispatch distinguishes. */
  datatype KeyKind =
    | IsSuccessKey | ResponseCodeKey | ResponseTextKey
    | PageKey | TotalKey | RemainderKey
    | NameKey | ExpiredateKey | AutoRenewKey | LetExpireKey
    | AttributesKey | ExpDomainsKey | OtherKey

  /** The arm of the match on the current key that a key selects. */
  function Kind(key: string): KeyKind {
    if key == "is_success" then IsSuccessKey
    else if key == "response_code" then ResponseCodeKey
    else if key == "response_text" then ResponseTextKey
    else if key == "page" then PageKey
    else if key == "total" then TotalKey
    else if key == "remainder" then RemainderKey
    else if key == "name" then NameKey
    else if key == "expiredate" then ExpiredateKey
    else if key == "f_auto_renew" then AutoRenewKey
    else if key == "f_let_expire" then LetExpireKey
    else if key == "attributes" then AttributesKey
    else if key == "exp_domains" then ExpDomainsKey
    else OtherKey
  }

  /** The effect of a non-empty trimmed text inside the data block: a dispatch
      on the current key. */
  function ApplyText(st: ParserState, text: string): ParserState {
    ApplyKind(st, Kind(st.currentKey), text)
  }

  /** The arms of the dispatch, where the four domain keys only apply inside
      the expiring-domain list (outside it they fall through to "no effect")
      and a domain field other than the name only applies to a pending domain. */
  function ApplyKind(st: ParserState, k: KeyKind, text: string): ParserState {
    match k
    case IsSuccessKey => st.(isSuccess := IsTrueText(text))
    case ResponseCodeKey => st.(responseCode := text)
    case ResponseTextKey => st.(responseText := text)
    case PageKey => st.(page := ParseOrZero(text, U32_LIMIT))
    case TotalKey => st.(total := ParseOrZero(text, U32_LIMIT))
    case RemainderKey => st.(remainder := ParseOrZero(text, U8_LIMIT))
    case NameKey =>
      if !st.inExpDomains then st
      else
        (match st.currentDomain
         case Some(d) => st.(currentDomain := Some(d.(name := text)))
         case None => st.(currentDomain := Some(ExpiringDomain(text, "", "", ""))))
    case ExpiredateKey =>
      if !st.inExpDomains then st
      else
        (match st.currentDomain
         case Some(d) => st.(currentDomain := Some(d.(expiredate := text)))
         case None => st)
    case AutoRenewKey =>
      if !st.inExpDomains then st
      else
        (match st.currentDomain
         case Some(d) => st.(currentDomain := Some(d.(fAutoRenew := text)))
         case None => st)
    case LetExpireKey =>
      if !st.inExpDomains then st
      else
        (match st.currentDomain
         case Some(d) => st.(expDomains := st.expDomains + [d.(fLetExpire := text)], currentDomain := None)
         case None => st)
    case AttributesKey => st.(inAttributes := true)
    case ExpDomainsKey => st.(inExpDomains := true)
    case OtherKey => st
  }

  /** No arm moves the current key or leaves the data block; only the
      `exp_domains` arm switches `in_exp_domains` on and none switches it off;
      only the `f_let_expire` arm on a pending domain inside the list touches
      the domain list. */
  lemma KindFrame(st: ParserState, k: KeyKind, text: string)
    ensures ApplyKind(st, k, text).currentKey == st.currentKey
    ensures ApplyKind(st, k, text).inDataBlock == st.inDataBlock
    ensures st.inExpDomains ==> ApplyKind(st, k, text).inExpDomains
    ensures !st.inExpDomains ==> (ApplyKind(st, k, text).inExpDomains <==> k == ExpDomainsKey)
    ensures !(st.inExpDomains && k == LetExpireKey && st.currentDomain.Some?) ==>
              ApplyKind(st, k, text).expDomains == st.expDomains
  {
    match k {
      case IsSuccessKey =>
      case ResponseCodeKey =>
      case ResponseTextKey =>
      case PageKey =>
      case TotalKey =>
      case RemainderKey =>
      case NameKey =>
      case ExpiredateKey =>
      case AutoRenewKey =>
      case LetExpireKey =>
      case AttributesKey =>
      case ExpDomainsKey =>
      case OtherKey =>
    }
  }

  /** The scalar arms overwrite their field whatever it held. */
  lemma KindScalarTwice(st: ParserState, k: KeyKind, a: string, b: string)
    requires k in {IsSuccessKey, ResponseCodeKey, ResponseTextKey, PageKey, TotalKey, RemainderKey}
    ensures ApplyKind(ApplyKind(st, k, a), k, b) == ApplyKind(st, k, b)
  {
    match k {
      case IsSuccessKey =>
      case ResponseCodeKey =>
      case ResponseTextKey =>
      case PageKey =>
      case TotalKey =>
      case RemainderKey =>
    }
  }

  /** The text a `Text` event contributes: the unescaped content (empty when
      unescaping failed), trimmed. */
  function EventText(content: Option<string>): string {
    Trim(content.GetOr(""))
  }

  /** One event that neither ends nor aborts the loop. */
  function Step(st: ParserState, ev: Event): ParserState {
    match ev
    case Start(name, attributes) =>
      if name == "data_block" then st.(inDataBlock := true)
      else if name == "item" then st.(currentKey := KeyAttribute(st.currentKey, attributes))
      else st
    case Text(content) =>
      if !st.inDataBlock then st
      else
        var text := EventText(content);
        if text == [] then st else ApplyText(st, text)
    case End(name) =>
      if name == "data_block" then st.(inDataBlock := false) else st
    case _ => st
  }

  /** The response built from the final state. */
  function Build(st: ParserState): Response {
    Response(st.isSuccess, st.responseCode, st.responseText,
             ResponseAttrs(st.page, st.total, st.remainder, st.expDomains))
  }

  /** The message of the error a reader error becomes. */
  function ParseErrorMessage(message: string): string {
    "XML parse error: " + message
  }

  /** The outcome of the loop from state `st` over the remaining events. */
  function Run(st: ParserState, events: seq<Event>): Result<Response, OpenSrsError>
    decreases |events|
  {
    if events == [] then Success(Build(st))
    else
      match events[0]
      case Eof => Success(Build(st))
      case Err(message) => Failure(XmlDeserialize(ParseErrorMessage(message)))
      case _ => Run(Step(st, events[0]), events[1..])
  }

  /** An event other than `Eof` and `Err` lets the loop go on from the stepped state. */
  lemma RunStep(st: ParserState, events: seq<Event>)
    requires events != [] && !events[0].Eof? && !events[0].Err?
    ensures Run(st, events) == Run(Step(st, events[0]), events[1..])
  {
  }

  // ---------------------------------------------------------------------
  // deserialize_response
  // ---------------------------------------------------------------------

  /** The scan of an `item` start tag's attributes for `key`. */
  method ScanKeyAttribute(key0: string, attributes: seq<Option<Attribute>>) returns (key: string)
    ensures key == KeyAttribute(key0, attributes)
  {
    key := key0;
    var j := 0;
    while j < |attributes|
      invariant 0 <= j <= |attributes|
      invariant key == KeyAttribute(key0, attributes[..j])
    {
      assert attributes[..j + 1][..j] == attributes[..j];
      match attributes[j] {
        case Some(attr) =>
          if attr.key == "key" {
            key := attr.value;
          }
        case None =>
      }
      j := j + 1;
    }
    assert attributes[..|attributes|] == attributes;
  }

  /** `deserialize_response`, as the loop over the reader's events. The
      loop's local variables are the fields of `st`. */
  method DeserializeResponse(events: seq<Event>) returns (r: Result<Response, OpenSrsError>)
    ensures r == Run(Initial, events)
  {
    var st := Initial;
    var i := 0;
    while i < |events|
      invariant 0 <= i <= |events|
      invariant Run(Initial, events) == Run(st, events[i..])
      decreases |events| - i
    {
      ghost var before := st;
      match events[i] {
        case Start(name, attributes) =>
          if name == "data_block" {
            st := st.(inDataBlock := true);
          } else if name == "item" {
            var key := ScanKeyAttribute(st.currentKey, attributes);
            st := st.(currentKey := key);
          }
        case Text(content) =>
          if st.inDataBlock {
            var text := EventText(content);
            if text != [] {
              match Kind(st.currentKey) {
                case IsSuccessKey =>
                  st := st.(isSuccess := text == "1" || ToLower(text) == "true");
                case ResponseCodeKey =>
                  st := st.(responseCode := text);
                case ResponseTextKey =>
                  st := st.(responseText := text);
                case PageKey =>
                  st := st.(page := ParseOrZero(text, U32_LIMIT));
                case TotalKey =>
                  st := st.(total := ParseOrZero(text, U32_LIMIT));
                case RemainderKey =>
                  st := st.(remainder := ParseOrZero(text, U8_LIMIT));
                case NameKey =>
                  if st.inExpDomains {
                    match st.currentDomain {
                      case Some(d) =>
                        st := st.(currentDomain := Some(d.(name := text)));
                      case None =>
                        st := st.(currentDomain := Some(ExpiringDomain(text, "", "", "")));
                    }
                  }
                case ExpiredateKey =>
                  if st.inExpDomains {
                    match st.currentDomain {
                      case Some(d) =>
                        st := st.(currentDomain := Some(d.(expiredate := text)));
                      case None =>
                    }
                  }
                case AutoRenewKey =>
                  if st.inExpDomains {
                    match st.currentDomain {
                      case Some(d) =>
                        st := st.(currentDomain := Some(d.(fAutoRenew := text)));
                      case None =>
                    }
                  }
                case LetExpireKey =>
                  if st.inExpDomains {
                    match st.currentDomain {
                      case Some(d) =>
                        st := st.(expDomains := st.expDomains + [d.(fLetExpire := text)], currentDomain := None);
                      case None =>
                    }
                  }
                case AttributesKey =>
                  st := st.(inAttributes := true);
                case ExpDomainsKey =>
                  st := st.(inExpDomains := true);
                case OtherKey =>
              }
              assert st == ApplyKind(before, Kind(before.currentKey), text);
            }
          }
          TextStep(before, content);
        case End(name) =>
          if name == "data_block" {
            st := st.(inDataBlock := false);
          }
        case Eof =>
          break;
        case Err(message) =>
          return Failure(XmlDeserialize("XML parse error: " + message));
        case Other =>
      }
      RunStep(before, events[i..]);
      assert events[i..][0] == events[i] && events[i..][1..] == events[i + 1..];
      assert st == Step(before, events[i]);
      i := i + 1;
    }

    r := Success(Response(st.isSuccess, st.responseCode, st.responseText,
                          ResponseAttrs(st.page, st.total, st.remainder, st.expDomains)));
  }

  // ---------------------------------------------------------------------
  // The loop as a whole
  // ---------------------------------------------------------------------

  /** Events that end the loop. */
  predicate IsStop(ev: Event) {
    ev.Eof? || ev.Err?
  }

  predicate NoStop(events: seq<Event>) {
    forall j :: 0 <= j < |events| ==> !IsStop(events[j])
  }

  /** The state after stepping through every event. */
  function Fold(st: ParserState, events: seq<Event>): ParserState
    decreases |events|
  {
    if events == [] then st else Fold(Step(st, events[0]), events[1..])
  }

  lemma {:induction false} FoldConcat(st: ParserState, a: seq<Event>, b: seq<Event>)
    ensures Fold(st, a + b) == Fold(Fold(st, a), b)
    decreases |a|
  {
    if a == [] {
      assert a + b == b;
    } else {
      assert (a + b)[0] == a[0] && (a + b)[1..] == a[1..] + b;
      FoldConcat(Step(st, a[0]), a[1..], b);
    }
  }

  /** Without `Eof` or `Err` among them, the events are all processed and the
      response is built from the final state. */
  lemma {:induction false} RunWithoutStop(st: ParserState, events: seq<Event>)
    requires NoStop(events)
    ensures Run(st, events) == Success(Build(Fold(st, events)))
    decreases |events|
  {
    if events != [] {
      assert !IsStop(events[0]);
      RunWithoutStop(Step(st, events[0]), events[1..]);
    }
  }

  /** A reader error aborts the loop with `XmlDeserialize` and no partial
      response, whatever was accumulated before it and whatever follows. */
  lemma {:induction false} ErrorAborts(st: ParserState, before: seq<Event>, message: string, after: seq<Event>)
    requires NoStop(before)
    ensures Run(st, before + [Err(message)] + after) == Failure(XmlDeserialize("XML parse error: " + message))
    decreases |before|
  {
    var events := before + [Err(message)] + after;
    if before == [] {
      assert events[0] == Err(message);
    } else {
      assert events[0] == before[0] && !IsStop(before[0]);
      assert events[1..] == before[1..] + [Err(message)] + after;
      ErrorAborts(Step(st, before[0]), before[1..], message, after);
    }
  }

  /** `Eof` ends the loop with the accumulated response; nothing after it is read. */
  lemma {:induction false} EofFinishes(st: ParserState, before: seq<Event>, after: seq<Event>)
    requires NoStop(before)
    ensures Run(st, before + [Eof] + after) == Success(Build(Fold(st, before)))
    decreases |before|
  {
    var events := before + [Eof] + after;
    if before == [] {
      assert events[0] == Eof;
    } else {
      assert events[0] == before[0] && !IsStop(before[0]);
      assert events[1..] == before[1..] + [Eof] + after;
      EofFinishes(Step(st, before[0]), before[1..], after);
    }
  }

  /** An event that leaves the state as it is can be dropped from the stream. */
  lemma NoOpInvisible(st: ParserState, ev: Event, rest: seq<Event>)
    requires !IsStop(ev) && Step(st, ev) == st
    ensures Run(st, [ev] + rest) == Run(st, rest)
  {
    assert ([ev] + rest)[1..] == rest;
  }

  // ---------------------------------------------------------------------
  // Events without effect
  // ---------------------------------------------------------------------

  /** Text outside `data_block` changes nothing. */
  lemma TextOutsideDataBlockIgnored(st: ParserState, content: Option<string>, rest: seq<Event>)
    requires !st.inDataBlock
    ensures Run(st, [Text(content)] + rest) == Run(st, rest)
  {
    NoOpInvisible(st, Text(content), rest);
  }

  /** Text that is blank after trimming changes nothing; so does text whose
      unescaping failed ("unwrap_or_default" makes it empty). */
  lemma BlankTextIgnored(st: ParserState, content: Option<string>, rest: seq<Event>)
    requires content == None || AllWhitespace(content.value)
    ensures Run(st, [Text(content)] + rest) == Run(st, rest)
  {
    TrimEmptyIff(content.GetOr(""));
    NoOpInvisible(st, Text(content), rest);
  }

  /** Without a well-formed `key` attribute among a start tag's attributes the
      current key stays. */
  lemma {:induction false} KeyAttributeAbsent(key: string, attributes: seq<Option<Attribute>>)
    requires forall j :: 0 <= j < |attributes| ==> !IsKeyAttribute(attributes[j])
    ensures KeyAttribute(key, attributes) == key
    decreases |attributes|
  {
    if attributes != [] {
      var init := attributes[..|attributes| - 1];
      assert forall j :: 0 <= j < |init| ==> init[j] == attributes[j];
      KeyAttributeAbsent(key, init);
    }
  }

  /** The last well-formed `key` attribute decides the current key. */
  lemma {:induction false} KeyAttributeLastWins(key: string, attributes: seq<Option<Attribute>>, j: nat)
    requires j < |attributes| && IsKeyAttribute(attributes[j])
    requires forall m :: j < m < |attributes| ==> !IsKeyAttribute(attributes[m])
    ensures KeyAttribute(key, attributes) == attributes[j].value.value
    decreases |attributes|
  {
    var n := |attributes| - 1;
    if j < n {
      var init := attributes[..n];
      assert forall m :: j < m < |init| ==> init[m] == attributes[m];
      KeyAttributeLastWins(key, init, j);
    }
  }

  /** A start tag of `item` without a `key` attribute keeps the current key and
      so changes nothing. */
  lemma ItemWithoutKeyIgnored(st: ParserState, attributes: seq<Option<Attribute>>, rest: seq<Event>)
    requires forall j :: 0 <= j < |attributes| ==> !IsKeyAttribute(attributes[j])
    ensures Run(st, [Start("item", attributes)] + rest) == Run(st, rest)
  {
    KeyAttributeAbsent(st.currentKey, attributes);
    NoOpInvisible(st, Start("item", attributes), rest);
  }

  // ---------------------------------------------------------------------
  // Scalar fields
  // ---------------------------------------------------------------------

  /** A text event that reaches the dispatch on the current key. */
  predicate Dispatched(st: ParserState, content: Option<string>) {
    st.inDataBlock && EventText(content) != []
  }

  /** A dispatched text is handled by `ApplyText`; any other text leaves the
      state as it is. */
  lemma TextStep(st: ParserState, content: Option<string>)
    ensures Dispatched(st, content) ==> Step(st, Text(content)) == ApplyText(st, EventText(content))
    ensures !Dispatched(st, content) ==> Step(st, Text(content)) == st
  {
  }

  /** `is_success` becomes true exactly for "1" and the capitalisations of "true"
      (after trimming); nothing else changes. */
  lemma IsSuccessIff(st: ParserState, t: string)
    requires st.currentKey == "is_success" && Dispatched(st, Some(t))
    ensures var text := Trim(t);
      var st' := Step(st, Text(Some(t)));
      st' == st.(isSuccess := st'.isSuccess) &&
      (st'.isSuccess <==>
        text == "1" ||
        (|text| == 4 && (text[0] == 't' || text[0] == 'T') && (text[1] == 'r' || text[1] == 'R')
                     && (text[2] == 'u' || text[2] == 'U') && (text[3] == 'e' || text[3] == 'E')))
  {
    TextStep(st, Some(t));
    LowerIsTrueIff(Trim(t));
  }

  /** The keys of the three numeric fields and the bound of each. */
  predicate NumericKey(key: string) {
    key == "page" || key == "total" || key == "remainder"
  }

  function NumericField(st: ParserState, key: string): nat
    requires NumericKey(key)
  {
    if key == "page" then st.page else if key == "total" then st.total else st.remainder
  }

  function NumericLimit(key: string): nat {
    if key == "remainder" then U8_LIMIT else U32_LIMIT
  }

  lemma ApplyNumeric(st: ParserState, text: string)
    requires NumericKey(st.currentKey)
    ensures var st' := ApplyText(st, text);
      var parsed := ParseUnsigned(text, NumericLimit(st.currentKey));
      NumericField(st', st.currentKey) == (if parsed.Some? then parsed.value else 0) &&
      st'.(page := st.page, total := st.total, remainder := st.remainder) == st
  {
  }

  /** A numeric field takes the parsed value of the text, or 0 when the text is
      not a number of the field's width; the other fields stay. */
  lemma NumericFieldParsed(st: ParserState, t: string)
    requires NumericKey(st.currentKey) && Dispatched(st, Some(t))
    ensures var st' := Step(st, Text(Some(t)));
      var parsed := ParseUnsigned(Trim(t), NumericLimit(st.currentKey));
      NumericField(st', st.currentKey) == (if parsed.Some? then parsed.value else 0) &&
      st'.(page := st.page, total := st.total, remainder := st.remainder) == st
  {
    TextStep(st, Some(t));
    ApplyNumeric(st, Trim(t));
  }

  /** The decimal rendering of a value that fits is read back as that value. */
  lemma NumericFieldRoundTrip(st: ParserState, n: nat)
    requires NumericKey(st.currentKey) && st.inDataBlock && n < NumericLimit(st.currentKey)
    ensures NumericField(Step(st, Text(Some(Decimal(n)))), st.currentKey) == n
  {
    var d := Decimal(n);
    assert !IsWhitespace(d[0]) && !IsWhitespace(d[|d| - 1]);
    TrimKeepsUnpadded(d);
    DecimalRoundTrip(n, NumericLimit(st.currentKey));
    NumericFieldParsed(st, d);
  }

  /** A value too wide for the field is read as 0, not wrapped (a remainder of
      "256" is 0). */
  lemma NumericOverflowIsZero(st: ParserState, n: nat)
    requires NumericKey(st.currentKey) && st.inDataBlock && NumericLimit(st.currentKey) <= n
    ensures NumericField(Step(st, Text(Some(Decimal(n)))), st.currentKey) == 0
  {
    var d := Decimal(n);
    assert !IsWhitespace(d[0]) && !IsWhitespace(d[|d| - 1]);
    TrimKeepsUnpadded(d);
    ParseRejectsOverflow(n, NumericLimit(st.currentKey));
    NumericFieldParsed(st, d);
  }

  /** The keys whose text overwrites a scalar field. */
  predicate ScalarKey(key: string) {
    NumericKey(key) || key == "is_success" || key == "response_code" || key == "response_text"
  }

  lemma ApplyScalarTwice(st: ParserState, a: string, b: string)
    requires ScalarKey(st.currentKey)
    ensures ApplyText(ApplyText(st, a), b) == ApplyText(st, b)
  {
    KindFrame(st, Kind(st.currentKey), a);
    KindScalarTwice(st, Kind(st.currentKey), a, b);
  }

  /** A later value of a field overwrites an earlier one. */
  lemma LaterValueOverwrites(st: ParserState, a: string, b: string)
    requires ScalarKey(st.currentKey) && Dispatched(st, Some(b))
    ensures Step(Step(st, Text(Some(a))), Text(Some(b))) == Step(st, Text(Some(b)))
  {
    var st1 := Step(st, Text(Some(a)));
    TextStep(st, Some(a));
    TextStep(st, Some(b));
    if Dispatched(st, Some(a)) {
      KindFrame(st, Kind(st.currentKey), Trim(a));
      ApplyScalarTwice(st, Trim(a), Trim(b));
    }
    TextStep(st1, Some(b));
  }

  // ---------------------------------------------------------------------
  // Expiring domains
  // ---------------------------------------------------------------------

  /** The one domain a step can add: the pending domain completed with the
      `f_let_expire` text. */
  predicate Completes(st: ParserState, ev: Event) {
    ev.Text? && Dispatched(st, ev.content) && st.inExpDomains
    && st.currentKey == "f_let_expire" && st.currentDomain.Some?
  }

  lemma ApplyCompletes(st: ParserState, text: string)
    requires st.inExpDomains && st.currentKey == "f_let_expire" && st.currentDomain.Some?
    ensures ApplyText(st, text) ==
      st.(expDomains := st.expDomains + [st.currentDomain.value.(fLetExpire := text)], currentDomain := None)
  {
  }

  lemma ApplyKeepsDomains(st: ParserState, text: string)
    requires !(st.inExpDomains && st.currentKey == "f_let_expire" && st.currentDomain.Some?)
    ensures ApplyText(st, text).expDomains == st.expDomains
  {
    KindFrame(st, Kind(st.currentKey), text);
  }

  /** A domain is appended exactly on an `f_let_expire` text inside the domain
      list while a domain is pending; the appended domain is the pending one
      with that text, and no domain is pending afterwards. Every other step
      keeps the list as it is. */
  lemma DomainAppendedIff(st: ParserState, ev: Event)
    ensures Completes(st, ev) ==>
      Step(st, ev).expDomains == st.expDomains + [st.currentDomain.value.(fLetExpire := EventText(ev.content))]
      && Step(st, ev).currentDomain == None
    ensures !Completes(st, ev) ==> Step(st, ev).expDomains == st.expDomains
  {
    if ev.Text? {
      var text := EventText(ev.content);
      TextStep(st, ev.content);
      if Completes(st, ev) {
        ApplyCompletes(st, text);
      } else if Dispatched(st, ev.content) {
        ApplyKeepsDomains(st, text);
      }
    }
  }

  lemma ApplyName(st: ParserState, text: string)
    requires st.currentKey == "name" && st.inExpDomains
    ensures ApplyText(st, text) == st.(currentDomain := Some(Named(st.currentDomain, text)))
  {
  }

  /** The pending domain after a `name` text. */
  function Named(pending: Option<ExpiringDomain>, name: string): (d: ExpiringDomain)
    ensures d.name == name
    ensures pending.None? ==> d == ExpiringDomain(name, "", "", "")
    ensures pending.Some? ==> d.(name := pending.value.name) == pending.value
  {
    match pending
    case Some(p) => p.(name := name)
    case None => ExpiringDomain(name, "", "", "")
  }

  /** A `name` text inside the domain list starts a pending domain with empty
      other fields, or renames the one already pending; nothing else changes. */
  lemma NameStartsOrRenames(st: ParserState, t: string)
    requires st.currentKey == "name" && st.inExpDomains && Dispatched(st, Some(t))
    ensures Step(st, Text(Some(t))) == st.(currentDomain := Some(Named(st.currentDomain, Trim(t))))
  {
    var text := Trim(t);
    assert EventText(Some(t)) == text;
    TextStep(st, Some(t));
    ApplyName(st, text);
  }

  /** The keys of a domain's fields other than its name. */
  predicate DomainFieldKey(key: string) {
    key == "expiredate" || key == "f_auto_renew" || key == "f_let_expire"
  }

  lemma ApplyFieldWithoutPending(st: ParserState, text: string)
    requires DomainFieldKey(st.currentKey) && st.currentDomain.None?
    ensures ApplyText(st, text) == st
  {
  }

  /** With no domain pending, a domain field other than the name is dropped. */
  lemma FieldWithoutPendingDropped(st: ParserState, t: string, rest: seq<Event>)
    requires DomainFieldKey(st.currentKey) && st.currentDomain.None?
    ensures Run(st, [Text(Some(t))] + rest) == Run(st, rest)
  {
    TextStep(st, Some(t));
    ApplyFieldWithoutPending(st, Trim(t));
    NoOpInvisible(st, Text(Some(t)), rest);
  }

  lemma ApplyOutsideList(st: ParserState, text: string)
    requires st.currentKey == "name" || DomainFieldKey(st.currentKey)
    requires !st.inExpDomains
    ensures ApplyText(st, text) == st
  {
  }

  /** Outside the domain list the domain keys are ignored. */
  lemma DomainKeysIgnoredOutsideList(st: ParserState, t: string, rest: seq<Event>)
    requires st.currentKey == "name" || DomainFieldKey(st.currentKey)
    requires !st.inExpDomains
    ensures Run(st, [Text(Some(t))] + rest) == Run(st, rest)
  {
    TextStep(st, Some(t));
    ApplyOutsideList(st, Trim(t));
    NoOpInvisible(st, Text(Some(t)), rest);
  }

  /** The domain list only grows at its end, so whatever was collected after
      some events is a prefix of what is collected after more events. */
  lemma DomainsKeepDocumentOrder(st: ParserState, a: seq<Event>, b: seq<Event>)
    ensures var before := Fold(st, a).expDomains;
      var after := Fold(st, a + b).expDomains;
      |before| <= |after| && after[..|before|] == before
  {
    FoldConcat(st, a, b);
    DomainsGrow(Fold(st, a), b);
  }

  lemma {:induction false} DomainsGrow(st: ParserState, events: seq<Event>)
    ensures |st.expDomains| <= |Fold(st, events).expDomains|
    ensures Fold(st, events).expDomains[..|st.expDomains|] == st.expDomains
    decreases |events|
  {
    if events != [] {
      var st' := Step(st, events[0]);
      DomainAppendedIff(st, events[0]);
      DomainsGrow(st', events[1..]);
      assert st'.expDomains[..|st.expDomains|] == st.expDomains;
    }
  }

  // ---------------------------------------------------------------------
  // The two flags
  // ---------------------------------------------------------------------

  lemma ApplyExpDomainsFlag(st: ParserState, text: string)
    ensures st.inExpDomains ==> ApplyText(st, text).inExpDomains
    ensures !st.inExpDomains ==> (ApplyText(st, text).inExpDomains <==> st.currentKey == "exp_domains")
  {
    KindFrame(st, Kind(st.currentKey), text);
  }

  /** `in_exp_domains` is switched on only by a non-empty text under the key
      `exp_domains`, and it is never switched off. */
  lemma InExpDomainsSwitch(st: ParserState, ev: Event)
    ensures st.inExpDomains ==> Step(st, ev).inExpDomains
    ensures !st.inExpDomains ==>
      (Step(st, ev).inExpDomains <==> ev.Text? && Dispatched(st, ev.content) && st.currentKey == "exp_domains")
  {
    if ev.Text? {
      TextStep(st, ev.content);
      ApplyExpDomainsFlag(st, EventText(ev.content));
    }
  }

  lemma {:induction false} InExpDomainsStays(st: ParserState, events: seq<Event>)
    requires st.inExpDomains
    ensures Fold(st, events).inExpDomains
    decreases |events|
  {
    if events != [] {
      InExpDomainsSwitch(st, events[0]);
      InExpDomainsStays(Step(st, events[0]), events[1..]);
    }
  }

  /** No domain is collected unless `in_exp_domains` ends up set. */
  lemma {:induction false} DomainsNeedFlag(st: ParserState, events: seq<Event>)
    requires !Fold(st, events).inExpDomains
    ensures Fold(st, events).expDomains == st.expDomains
    decreases |events|
  {
    if events != [] {
      var st' := Step(st, events[0]);
      InExpDomainsSwitch(st, events[0]);
      if st'.inExpDomains {
        InExpDomainsStays(st', events[1..]);
        assert false;
      } else {
        DomainAppendedIff(st, events[0]);
        DomainsNeedFlag(st', events[1..]);
      }
    }
  }

  /** The start tag of an item with a single `key` attribute. */
  function KeyStart(key: string): Event {
    Start("item", [Some(Attribute("key", key))])
  }

  lemma KeyStartSetsKey(st: ParserState, key: string)
    ensures Step(st, KeyStart(key)) == st.(currentKey := key)
  {
    assert [Some(Attribute("key", key))][..0] == [];
  }

  /** Every text but a leading one comes right after the start tag of an item
      whose key is not `exp_domains`, as in a listing where `exp_domains` holds
      an array. */
  predicate TextsUnderOtherKeys(events: seq<Event>) {
    forall j :: 0 < j < |events| && events[j].Text? ==>
      events[j - 1].Start? && events[j - 1].name == "item"
      && |events[j - 1].attributes| == 1 && IsKeyAttribute(events[j - 1].attributes[0])
      && events[j - 1].attributes[0].value.value != "exp_domains"
  }

  lemma {:induction false} TextsUnderOtherKeysKeepFlag(st: ParserState, events: seq<Event>)
    requires !st.inExpDomains && TextsUnderOtherKeys(events)
    requires events != [] && events[0].Text? ==> st.currentKey != "exp_domains"
    ensures !Fold(st, events).inExpDomains
    decreases |events|
  {
    if events != [] {
      var ev := events[0];
      var st' := Step(st, ev);
      InExpDomainsSwitch(st, ev);
      var rest := events[1..];
      assert forall j :: 0 <= j < |rest| ==> rest[j] == events[j + 1];
      if rest != [] && rest[0].Text? {
        var key := ev.attributes[0].value.value;
        assert ev.attributes == [Some(Attribute("key", key))];
        assert ev == KeyStart(key);
        KeyStartSetsKey(st, key);
      }
      TextsUnderOtherKeysKeepFlag(st', rest);
    }
  }

  /** So in such a listing no domain is collected, whatever the items hold. */
  lemma TextsUnderOtherKeysCollectNothing(events: seq<Event>)
    requires TextsUnderOtherKeys(events) && NoStop(events)
    ensures Run(Initial, events) == Success(Build(Fold(Initial, events)))
    ensures Fold(Initial, events).expDomains == []
  {
    RunWithoutStop(Initial, events);
    TextsUnderOtherKeysKeepFlag(Initial, events);
    DomainsNeedFlag(Initial, events);
  }

  /** One listing record laid out as OpenSRS nests it: an `exp_domains` item
      holding an array whose item holds the record's fields. */
  function NestedListing(name: string, letExpire: string): seq<Event> {
    [Start("data_block", []), KeyStart("exp_domains"), Start("dt_array", []),
     KeyStart("0"), Start("dt_assoc", []),
     KeyStart("name"), Text(Some(name)),
     KeyStart("f_let_expire"), Text(Some(letExpire))]
  }

  /** The loop as written collects nothing from it. */
  lemma NestedListingCollectsNothing(name: string, letExpire: string)
    ensures var events := NestedListing(name, letExpire);
      Run(Initial, events) == Success(Build(Fold(Initial, events))) &&
      Fold(Initial, events).expDomains == []
  {
    var e := NestedListing(name, letExpire);
    assert TextsUnderOtherKeys(e) by {
      forall j | 0 < j < |e| && e[j].Text?
        ensures e[j - 1].Start? && e[j - 1].name == "item"
          && |e[j - 1].attributes| == 1 && IsKeyAttribute(e[j - 1].attributes[0])
          && e[j - 1].attributes[0].value.value != "exp_domains"
      {
        assert j == 6 || j == 8;
      }
    }
    TextsUnderOtherKeysCollectNothing(e);
  }

  /** `</data_block>` clears `in_data_block`, so the text after it is ignored. */
  lemma DataBlockClosed(st: ParserState, content: Option<string>, rest: seq<Event>)
    ensures !Step(st, End("data_block")).inDataBlock
    ensures Run(st, [End("data_block"), Text(content)] + rest) == Run(st.(inDataBlock := false), rest)
  {
    var events := [End("data_block"), Text(content)] + rest;
    assert events[1..] == [Text(content)] + rest;
    TextOutsideDataBlockIgnored(st.(inDataBlock := false), content, rest);
  }

  // ---------------------------------------------------------------------
  // Entering the domain list at its item
  // ---------------------------------------------------------------------

  /** The step with `in_exp_domains` switched on when the item keyed
      `exp_domains` starts, rather than on text directly under that key (which
      a list of records never has). Everything else is `Step`. */
  function StepCorrected(st: ParserState, ev: Event): ParserState {
    match ev
    case Start(name, attributes) =>
      if name == "item" then
        var key := KeyAttribute(st.currentKey, attributes);
        st.(currentKey := key, inExpDomains := st.inExpDomains || key == "exp_domains")
      else Step(st, ev)
    case _ => Step(st, ev)
  }

  function FoldCorrected(st: ParserState, events: seq<Event>): ParserState
    decreases |events|
  {
    if events == [] then st else FoldCorrected(StepCorrected(st, events[0]), events[1..])
  }

  lemma {:induction false} FoldCorrectedConcat(st: ParserState, a: seq<Event>, b: seq<Event>)
    ensures FoldCorrected(st, a + b) == FoldCorrected(FoldCorrected(st, a), b)
    decreases |a|
  {
    if a == [] {
      assert a + b == b;
    } else {
      assert (a + b)[0] == a[0] && (a + b)[1..] == a[1..] + b;
      FoldCorrectedConcat(StepCorrected(st, a[0]), a[1..], b);
    }
  }

  lemma FoldCorrectedPair(st: ParserState, e0: Event, e1: Event)
    ensures FoldCorrected(st, [e0, e1]) == StepCorrected(StepCorrected(st, e0), e1)
  {
    var st1 := StepCorrected(st, e0);
    assert [e0, e1][1..] == [e1];
    assert FoldCorrected(st, [e0, e1]) == FoldCorrected(st1, [e1]);
    assert [e1][1..] == [];
    assert FoldCorrected(st1, [e1]) == FoldCorrected(StepCorrected(st1, e1), []);
  }

  lemma KeyStartCorrected(st: ParserState, key: string)
    ensures StepCorrected(st, KeyStart(key)) ==
      st.(currentKey := key, inExpDomains := st.inExpDomains || key == "exp_domains")
  {
    assert [Some(Attribute("key", key))][..0] == [];
  }

  /** The opening of the nested listing: the data block, the `exp_domains`
      item, its array and the array's first record. */
  function NestedOpening(): seq<Event> {
    [Start("data_block", []), KeyStart("exp_domains"), Start("dt_array", []), KeyStart("0"), Start("dt_assoc", [])]
  }

  lemma NestedOpeningCorrected()
    ensures FoldCorrected(Initial, NestedOpening()) ==
      Initial.(inDataBlock := true, currentKey := "0", inExpDomains := true)
  {
    var e := NestedOpening();
    var st1 := Initial.(inDataBlock := true);
    var st2 := st1.(currentKey := "exp_domains", inExpDomains := true);
    var st4 := st2.(currentKey := "0");
    KeyStartCorrected(st1, "exp_domains");
    KeyStartCorrected(st2, "0");
    FoldCorrectedPair(Initial, e[0], e[1]);
    FoldCorrectedPair(st2, e[2], e[3]);
    assert [e[4]][1..] == [];
    assert e == [e[0], e[1]] + [e[2], e[3]] + [e[4]];
    FoldCorrectedConcat(Initial, [e[0], e[1]] + [e[2], e[3]], [e[4]]);
    FoldCorrectedConcat(Initial, [e[0], e[1]], [e[2], e[3]]);
  }

  /** Inside the domain list, a keyed text for a field. */
  lemma FieldCorrected(st: ParserState, key: string, t: string)
    requires st.inDataBlock && st.inExpDomains && Trim(t) != []
    ensures FoldCorrected(st, [KeyStart(key), Text(Some(t))]) == Step(st.(currentKey := key), Text(Some(t)))
  {
    FoldCorrectedPair(st, KeyStart(key), Text(Some(t)));
    KeyStartCorrected(st, key);
  }

  /** With the correction, the record of the nested listing is collected. */
  lemma NestedListingCollectedWhenCorrected(name: string, letExpire: string)
    requires Trim(name) != [] && Trim(letExpire) != []
    ensures FoldCorrected(Initial, NestedListing(name, letExpire)).expDomains
              == [ExpiringDomain(Trim(name), "", "", Trim(letExpire))]
  {
    var a := NestedOpening();
    var b := [KeyStart("name"), Text(Some(name))];
    var c := [KeyStart("f_let_expire"), Text(Some(letExpire))];
    assert NestedListing(name, letExpire) == a + b + c;
    NestedNameCorrected(name);
    NestedLetExpireCorrected(NamedRecord(name), letExpire);
    FoldCorrectedConcat(Initial, a + b, c);
  }

  /** The state once the record's name has been read. */
  function NamedRecord(name: string): ParserState {
    Initial.(inDataBlock := true, currentKey := "name", inExpDomains := true,
             currentDomain := Some(ExpiringDomain(Trim(name), "", "", "")))
  }

  lemma NestedNameCorrected(name: string)
    requires Trim(name) != []
    ensures FoldCorrected(Initial, NestedOpening() + [KeyStart("name"), Text(Some(name))]) == NamedRecord(name)
  {
    var st5 := Initial.(inDataBlock := true, currentKey := "0", inExpDomains := true);
    NestedOpeningCorrected();
    FieldCorrected(st5, "name", name);
    NameStartsOrRenames(st5.(currentKey := "name"), name);
    FoldCorrectedConcat(Initial, NestedOpening(), [KeyStart("name"), Text(Some(name))]);
  }

  lemma NestedLetExpireCorrected(st: ParserState, letExpire: string)
    requires st.inDataBlock && st.inExpDomains && st.currentDomain.Some? && Trim(letExpire) != []
    ensures FoldCorrected(st, [KeyStart("f_let_expire"), Text(Some(letExpire))]).expDomains
              == st.expDomains + [st.currentDomain.value.(fLetExpire := Trim(letExpire))]
  {
    FieldCorrected(st, "f_let_expire", letExpire);
    DomainAppendedIff(st.(currentKey := "f_let_expire"), Text(Some(letExpire)));
  }

  /** The correction only changes what happens at the start tag of the item
      keyed `exp_domains`: on every other event the two steps agree. */
  lemma CorrectionIsLocal(st: ParserState, ev: Event)
    requires !(ev.Start? && ev.name == "item" && KeyAttribute(st.currentKey, ev.attributes) == "exp_domains")
    ensures StepCorrected(st, ev) == Step(st, ev)
  {
  }

  // ---------------------------------------------------------------------
  // A listing of any number of records
  // ---------------------------------------------------------------------

  /** The start tag of an item and the text inside it. */
  function KeyedText(key: string, t: string): seq<Event> {
    [KeyStart(key), Text(Some(t))]
  }

  /** The four fields of one record, each under its own item. */
  function RecordFields(d: ExpiringDomain): seq<Event> {
    KeyedText("name", d.name) + KeyedText("expiredate", d.expiredate)
    + KeyedText("f_auto_renew", d.fAutoRenew) + KeyedText("f_let_expire", d.fLetExpire)
  }

  function EntryOpening(i: nat): seq<Event> {
    [KeyStart(Decimal(i)), Start("dt_assoc", [])]
  }

  function EntryClosing(): seq<Event> {
    [End("dt_assoc"), End("item")]
  }

  /** Entry `i` of the array: an item keyed by its index that holds a
      `dt_assoc` of the record's fields. */
  function ArrayEntry(i: nat, d: ExpiringDomain): seq<Event> {
    EntryOpening(i) + RecordFields(d) + EntryClosing()
  }

  /** The entries `from`, `from + 1`, ... holding the records `ds`. */
  function ArrayEntries(ds: seq<ExpiringDomain>, from: nat): seq<Event>
    decreases |ds|
  {
    if ds == [] then [] else ArrayEntry(from, ds[0]) + ArrayEntries(ds[1..], from + 1)
  }

  function ListingOpening(): seq<Event> {
    [Start("data_block", []), KeyStart("exp_domains"), Start("dt_array", [])]
  }

  function ListingClosing(): seq<Event> {
    [End("dt_array"), End("item"), End("data_block")]
  }

  /** A listing of the records `ds` laid out as OpenSRS nests it: the
      `exp_domains` item holds an array with one entry per record. */
  function NestedRecords(ds: seq<ExpiringDomain>): seq<Event> {
    ListingOpening() + ArrayEntries(ds, 0) + ListingClosing()
  }

  lemma TextsUnderOtherKeysConcat(a: seq<Event>, b: seq<Event>)
    requires TextsUnderOtherKeys(a) && TextsUnderOtherKeys(b)
    requires b != [] ==> !b[0].Text?
    ensures TextsUnderOtherKeys(a + b)
  {
    var e := a + b;
    forall j | 0 < j < |e| && e[j].Text?
      ensures e[j - 1].Start? && e[j - 1].name == "item"
        && |e[j - 1].attributes| == 1 && IsKeyAttribute(e[j - 1].attributes[0])
        && e[j - 1].attributes[0].value.value != "exp_domains"
    {
      if j < |a| {
        assert e[j] == a[j] && e[j - 1] == a[j - 1];
      } else {
        assert j > |a| && e[j] == b[j - |a|] && e[j - 1] == b[j - |a| - 1];
      }
    }
  }

  lemma KeyedTextUnderOtherKey(key: string, t: string)
    requires key != "exp_domains"
    ensures TextsUnderOtherKeys(KeyedText(key, t))
  {
  }

  lemma NoStopConcat(a: seq<Event>, b: seq<Event>)
    requires NoStop(a) && NoStop(b)
    ensures NoStop(a + b)
  {
    forall j | 0 <= j < |a + b|
      ensures !IsStop((a + b)[j])
    {
      if j >= |a| {
        assert (a + b)[j] == b[j - |a|];
      }
    }
  }

  lemma RecordFieldsUnderOtherKeys(d: ExpiringDomain)
    ensures TextsUnderOtherKeys(RecordFields(d))
  {
    var f0 := KeyedText("name", d.name);
    var f1 := f0 + KeyedText("expiredate", d.expiredate);
    var f2 := f1 + KeyedText("f_auto_renew", d.fAutoRenew);
    KeyedTextUnderOtherKey("name", d.name);
    KeyedTextUnderOtherKey("expiredate", d.expiredate);
    KeyedTextUnderOtherKey("f_auto_renew", d.fAutoRenew);
    KeyedTextUnderOtherKey("f_let_expire", d.fLetExpire);
    TextsUnderOtherKeysConcat(f0, KeyedText("expiredate", d.expiredate));
    TextsUnderOtherKeysConcat(f1, KeyedText("f_auto_renew", d.fAutoRenew));
    TextsUnderOtherKeysConcat(f2, KeyedText("f_let_expire", d.fLetExpire));
  }

  lemma EntryNoStop(i: nat, d: ExpiringDomain)
    ensures NoStop(ArrayEntry(i, d))
  {
    var e := ArrayEntry(i, d);
    assert |e| == 12;
    forall j | 0 <= j < 12
      ensures !IsStop(e[j])
    {
    }
  }

  /** Every text of an entry sits under a field's item, and an entry neither
      starts with a text nor ends the loop. */
  lemma EntryUnderOtherKeys(i: nat, d: ExpiringDomain)
    ensures TextsUnderOtherKeys(ArrayEntry(i, d)) && NoStop(ArrayEntry(i, d))
    ensures ArrayEntry(i, d)[0] == KeyStart(Decimal(i))
  {
    RecordFieldsUnderOtherKeys(d);
    TextsUnderOtherKeysConcat(EntryOpening(i), RecordFields(d));
    TextsUnderOtherKeysConcat(EntryOpening(i) + RecordFields(d), EntryClosing());
    EntryNoStop(i, d);
  }

  lemma {:induction false} EntriesUnderOtherKeys(ds: seq<ExpiringDomain>, from: nat)
    ensures TextsUnderOtherKeys(ArrayEntries(ds, from)) && NoStop(ArrayEntries(ds, from))
    ensures ArrayEntries(ds, from) != [] ==> !ArrayEntries(ds, from)[0].Text?
    decreases |ds|
  {
    if ds != [] {
      var entry, rest := ArrayEntry(from, ds[0]), ArrayEntries(ds[1..], from + 1);
      EntryUnderOtherKeys(from, ds[0]);
      EntriesUnderOtherKeys(ds[1..], from + 1);
      TextsUnderOtherKeysConcat(entry, rest);
      NoStopConcat(entry, rest);
    }
  }

  /** As written, the loop collects nothing from such a listing, however many
      records it holds. */
  lemma NestedRecordsCollectNothing(ds: seq<ExpiringDomain>)
    ensures var events := NestedRecords(ds);
      Run(Initial, events) == Success(Build(Fold(Initial, events))) &&
      Fold(Initial, events).expDomains == []
  {
    NestedRecordsUnderOtherKeys(ds);
    TextsUnderOtherKeysCollectNothing(NestedRecords(ds));
  }

  lemma NestedRecordsUnderOtherKeys(ds: seq<ExpiringDomain>)
    ensures TextsUnderOtherKeys(NestedRecords(ds)) && NoStop(NestedRecords(ds))
  {
    EntriesUnderOtherKeys(ds, 0);
    assert TextsUnderOtherKeys(ListingOpening()) && NoStop(ListingOpening());
    assert TextsUnderOtherKeys(ListingClosing()) && NoStop(ListingClosing());
    ShapeOfThree(ListingOpening(), ArrayEntries(ds, 0), ListingClosing());
  }

  lemma ShapeOfThree(a: seq<Event>, b: seq<Event>, c: seq<Event>)
    requires TextsUnderOtherKeys(a) && TextsUnderOtherKeys(b) && TextsUnderOtherKeys(c)
    requires NoStop(a) && NoStop(b) && NoStop(c)
    requires b != [] ==> !b[0].Text?
    requires c != [] ==> !c[0].Text?
    ensures TextsUnderOtherKeys(a + b + c) && NoStop(a + b + c)
  {
    TextsUnderOtherKeysConcat(a, b);
    TextsUnderOtherKeysConcat(a + b, c);
    NoStopConcat(a, b);
    NoStopConcat(a + b, c);
  }

  /** The domain a record is collected as: its fields, trimmed. */
  function TrimmedDomain(d: ExpiringDomain): ExpiringDomain {
    ExpiringDomain(Trim(d.name), Trim(d.expiredate), Trim(d.fAutoRenew), Trim(d.fLetExpire))
  }

  /** The domains records are collected as: one per record, in the records'
      order, with its fields trimmed. */
  function TrimmedDomains(ds: seq<ExpiringDomain>): seq<ExpiringDomain>
    decreases |ds|
  {
    if ds == [] then [] else [TrimmedDomain(ds[0])] + TrimmedDomains(ds[1..])
  }

  /** No field of the record is blank, so none of its texts is skipped. */
  predicate FieldsNonBlank(d: ExpiringDomain) {
    Trim(d.name) != [] && Trim(d.expiredate) != [] && Trim(d.fAutoRenew) != [] && Trim(d.fLetExpire) != []
  }

  /** Inside the domain list with no domain pending, as between two records. */
  predicate BetweenRecords(st: ParserState) {
    st.inDataBlock && st.inExpDomains && st.currentDomain.None?
  }

  lemma ApplyExpiredate(st: ParserState, text: string)
    requires st.currentKey == "expiredate" && st.inExpDomains && st.currentDomain.Some?
    ensures ApplyText(st, text) == st.(currentDomain := Some(st.currentDomain.value.(expiredate := text)))
  {
  }

  lemma ApplyAutoRenew(st: ParserState, text: string)
    requires st.currentKey == "f_auto_renew" && st.inExpDomains && st.currentDomain.Some?
    ensures ApplyText(st, text) == st.(currentDomain := Some(st.currentDomain.value.(fAutoRenew := text)))
  {
  }

  /** With a domain pending inside the list, an `expiredate` text sets that
      field of the pending domain and nothing else. */
  lemma PendingExpiredateSet(st: ParserState, t: string)
    requires st.currentKey == "expiredate" && st.inExpDomains && st.currentDomain.Some? && Dispatched(st, Some(t))
    ensures Step(st, Text(Some(t))) == st.(currentDomain := Some(st.currentDomain.value.(expiredate := Trim(t))))
  {
    assert EventText(Some(t)) == Trim(t);
    TextStep(st, Some(t));
    ApplyExpiredate(st, Trim(t));
  }

  /** Likewise for an `f_auto_renew` text. */
  lemma PendingAutoRenewSet(st: ParserState, t: string)
    requires st.currentKey == "f_auto_renew" && st.inExpDomains && st.currentDomain.Some? && Dispatched(st, Some(t))
    ensures Step(st, Text(Some(t))) == st.(currentDomain := Some(st.currentDomain.value.(fAutoRenew := Trim(t))))
  {
    assert EventText(Some(t)) == Trim(t);
    TextStep(st, Some(t));
    ApplyAutoRenew(st, Trim(t));
  }

  lemma FoldCorrectedTriple(st: ParserState, e0: Event, e1: Event, e2: Event)
    ensures FoldCorrected(st, [e0, e1, e2]) == StepCorrected(StepCorrected(StepCorrected(st, e0), e1), e2)
  {
    assert [e0, e1, e2][1..] == [e1, e2];
    FoldCorrectedPair(StepCorrected(st, e0), e1, e2);
  }

  /** With the correction, the four fields of a record make one domain. */
  lemma RecordFieldsCorrected(st: ParserState, d: ExpiringDomain)
    requires BetweenRecords(st) && FieldsNonBlank(d)
    ensures FoldCorrected(st, RecordFields(d)) ==
      st.(currentKey := "f_let_expire", expDomains := st.expDomains + [TrimmedDomain(d)])
  {
    var n, e := KeyedText("name", d.name), KeyedText("expiredate", d.expiredate);
    var a, l := KeyedText("f_auto_renew", d.fAutoRenew), KeyedText("f_let_expire", d.fLetExpire);
    FoldCorrectedFour(st, n, e, a, l);
    var p1 := ExpiringDomain(Trim(d.name), "", "", "");
    var p2 := p1.(expiredate := Trim(d.expiredate));
    var p3 := p2.(fAutoRenew := Trim(d.fAutoRenew));
    var s1 := st.(currentKey := "name", currentDomain := Some(p1));
    var s2 := s1.(currentKey := "expiredate", currentDomain := Some(p2));
    var s3 := s2.(currentKey := "f_auto_renew", currentDomain := Some(p3));
    NameCorrected(st, d.name);
    ExpiredateCorrected(s1, d.expiredate);
    AutoRenewCorrected(s2, d.fAutoRenew);
    LetExpireCorrected(s3, d.fLetExpire);
  }

  lemma FoldCorrectedFour(st: ParserState, a: seq<Event>, b: seq<Event>, c: seq<Event>, d: seq<Event>)
    ensures FoldCorrected(st, a + b + c + d) ==
      FoldCorrected(FoldCorrected(FoldCorrected(FoldCorrected(st, a), b), c), d)
  {
    FoldCorrectedConcat(st, a + b + c, d);
    FoldCorrectedThree(st, a, b, c);
  }

  lemma NameCorrected(st: ParserState, t: string)
    requires BetweenRecords(st) && Trim(t) != []
    ensures FoldCorrected(st, KeyedText("name", t)) ==
      st.(currentKey := "name", currentDomain := Some(ExpiringDomain(Trim(t), "", "", "")))
  {
    FieldCorrected(st, "name", t);
    NameStartsOrRenames(st.(currentKey := "name"), t);
  }

  lemma ExpiredateCorrected(st: ParserState, t: string)
    requires st.inDataBlock && st.inExpDomains && st.currentDomain.Some? && Trim(t) != []
    ensures FoldCorrected(st, KeyedText("expiredate", t)) ==
      st.(currentKey := "expiredate", currentDomain := Some(st.currentDomain.value.(expiredate := Trim(t))))
  {
    FieldCorrected(st, "expiredate", t);
    PendingExpiredateSet(st.(currentKey := "expiredate"), t);
  }

  lemma AutoRenewCorrected(st: ParserState, t: string)
    requires st.inDataBlock && st.inExpDomains && st.currentDomain.Some? && Trim(t) != []
    ensures FoldCorrected(st, KeyedText("f_auto_renew", t)) ==
      st.(currentKey := "f_auto_renew", currentDomain := Some(st.currentDomain.value.(fAutoRenew := Trim(t))))
  {
    FieldCorrected(st, "f_auto_renew", t);
    PendingAutoRenewSet(st.(currentKey := "f_auto_renew"), t);
  }

  lemma LetExpireCorrected(st: ParserState, t: string)
    requires st.inDataBlock && st.inExpDomains && st.currentDomain.Some? && Trim(t) != []
    ensures FoldCorrected(st, KeyedText("f_let_expire", t)) ==
      st.(currentKey := "f_let_expire", currentDomain := None,
          expDomains := st.expDomains + [st.currentDomain.value.(fLetExpire := Trim(t))])
  {
    var s := st.(currentKey := "f_let_expire");
    FieldCorrected(st, "f_let_expire", t);
    assert EventText(Some(t)) == Trim(t);
    TextStep(s, Some(t));
    ApplyCompletes(s, Trim(t));
  }

  lemma EntryOpeningCorrected(st: ParserState, i: nat)
    requires st.inExpDomains
    ensures FoldCorrected(st, EntryOpening(i)) == st.(currentKey := Decimal(i))
  {
    KeyStartCorrected(st, Decimal(i));
    FoldCorrectedPair(st, KeyStart(Decimal(i)), Start("dt_assoc", []));
  }

  lemma EntryClosingCorrected(st: ParserState)
    ensures FoldCorrected(st, EntryClosing()) == st
  {
    FoldCorrectedPair(st, End("dt_assoc"), End("item"));
  }

  /** With the correction, an entry of the array adds its record's domain. */
  lemma EntryCorrected(st: ParserState, i: nat, d: ExpiringDomain)
    requires BetweenRecords(st) && FieldsNonBlank(d)
    ensures var st' := FoldCorrected(st, ArrayEntry(i, d));
      BetweenRecords(st') && st'.expDomains == st.expDomains + [TrimmedDomain(d)]
  {
    FoldCorrectedThree(st, EntryOpening(i), RecordFields(d), EntryClosing());
    EntryOpeningCorrected(st, i);
    var s0 := st.(currentKey := Decimal(i));
    RecordFieldsCorrected(s0, d);
    EntryClosingCorrected(FoldCorrected(s0, RecordFields(d)));
  }

  lemma {:induction false} EntriesCorrected(st: ParserState, ds: seq<ExpiringDomain>, from: nat)
    requires BetweenRecords(st) && forall k :: 0 <= k < |ds| ==> FieldsNonBlank(ds[k])
    ensures var st' := FoldCorrected(st, ArrayEntries(ds, from));
      BetweenRecords(st') && st'.expDomains == st.expDomains + TrimmedDomains(ds)
    decreases |ds|
  {
    if ds != [] {
      EntryCorrected(st, from, ds[0]);
      EntriesCorrected(FoldCorrected(st, ArrayEntry(from, ds[0])), ds[1..], from + 1);
      EntriesStep(st, ds, from);
    }
  }

  /** The first entry's domain followed by the later entries' domains. */
  lemma EntriesStep(st: ParserState, ds: seq<ExpiringDomain>, from: nat)
    requires ds != []
    requires var st1 := FoldCorrected(st, ArrayEntry(from, ds[0]));
      var st2 := FoldCorrected(st1, ArrayEntries(ds[1..], from + 1));
      st1.expDomains == st.expDomains + [TrimmedDomain(ds[0])]
      && BetweenRecords(st2) && st2.expDomains == st1.expDomains + TrimmedDomains(ds[1..])
    ensures var st' := FoldCorrected(st, ArrayEntries(ds, from));
      BetweenRecords(st') && st'.expDomains == st.expDomains + TrimmedDomains(ds)
  {
    var entry, rest := ArrayEntry(from, ds[0]), ArrayEntries(ds[1..], from + 1);
    var st1 := FoldCorrected(st, entry);
    CombineEntries(st, st1, FoldCorrected(st1, rest), entry, rest, TrimmedDomain(ds[0]), TrimmedDomains(ds[1..]));
  }

  /** An entry's domain followed by the later entries' domains. */
  lemma CombineEntries(st: ParserState, st1: ParserState, st2: ParserState, entry: seq<Event>, rest: seq<Event>,
                       x: ExpiringDomain, xs: seq<ExpiringDomain>)
    requires FoldCorrected(st, entry) == st1 && FoldCorrected(st1, rest) == st2
    requires st1.expDomains == st.expDomains + [x] && st2.expDomains == st1.expDomains + xs
    ensures FoldCorrected(st, entry + rest) == st2 && st2.expDomains == st.expDomains + ([x] + xs)
  {
    FoldCorrectedConcat(st, entry, rest);
  }

  /** With the correction, every record of the listing is collected, in
      order, with its fields trimmed. */
  lemma NestedRecordsCollectedWhenCorrected(ds: seq<ExpiringDomain>)
    requires forall k :: 0 <= k < |ds| ==> FieldsNonBlank(ds[k])
    ensures FoldCorrected(Initial, NestedRecords(ds)).expDomains == TrimmedDomains(ds)
  {
    var entries := ArrayEntries(ds, 0);
    FoldCorrectedThree(Initial, ListingOpening(), entries, ListingClosing());
    ListingOpeningCorrected();
    var st3 := FoldCorrected(Initial, ListingOpening());
    EntriesCorrected(st3, ds, 0);
    ListingClosingCorrected(FoldCorrected(st3, entries));
  }

  lemma FoldCorrectedThree(st: ParserState, a: seq<Event>, b: seq<Event>, c: seq<Event>)
    ensures FoldCorrected(st, a + b + c) == FoldCorrected(FoldCorrected(FoldCorrected(st, a), b), c)
  {
    FoldCorrectedConcat(st, a + b, c);
    FoldCorrectedConcat(st, a, b);
  }

  /** With the correction, the opening of the listing enters the domain list. */
  lemma ListingOpeningCorrected()
    ensures BetweenRecords(FoldCorrected(Initial, ListingOpening()))
    ensures FoldCorrected(Initial, ListingOpening()).expDomains == []
  {
    var st1 := Initial.(inDataBlock := true);
    KeyStartCorrected(st1, "exp_domains");
    FoldCorrectedTriple(Initial, Start("data_block", []), KeyStart("exp_domains"), Start("dt_array", []));
  }

  lemma ListingClosingCorrected(st: ParserState)
    ensures FoldCorrected(st, ListingClosing()).expDomains == st.expDomains
  {
    FoldCorrectedTriple(st, End("dt_array"), End("item"), End("data_block"));
  }

}
