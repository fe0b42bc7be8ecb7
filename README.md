# OpenSRS XCP client (fini-net/macaw), modelled in Dafny

This project models the deterministic core of a small client for the OpenSRS
XCP API. The core has four parts:

- **`src/opensrs/xml.rs`**:
  - `serialize_request` builds the `OPS_envelope` of a
    GET_DOMAINS_BY_EXPIREDATE request by appending text to a string.
  - `deserialize_response` is an event loop over the XML reader's events. It
    fills in the response fields and collects `ExpiringDomain` records.
  - `calculate_content_length` is the UTF-8 byte count of the request.
- **`src/opensrs/domain.rs`**: `get_domains_by_expiredate` requests pages 0, 1,
  2, … with page size 40. It stops at an error, at an unsuccessful response, or
  at the first page whose `remainder` is 0, and concatenates the pages' domains.
- **`src/config/mod.rs`**: in `from_env`, a missing username beats a missing
  credential. Both beat a blank username, which beats a blank credential. The
  trimmed values are returned. `available` only asks whether both variables are
  set.
- **`src/opensrs/types.rs`**: the records, plus the endpoint of each environment.

Modules, one per source file plus two helpers:

- `Wrappers`: `Option` and `Result`.
- `Strings`: the pieces of Rust's standard library the code relies on. These
  are `char::is_whitespace`/`str::trim`, and decimal `Display` and `FromStr`
  for a bounded unsigned width, all stated exactly. They also include
  `to_lowercase`, which is stated for ASCII letters only.
- `Types`: `types.rs`.
- `Errors`: `error.rs`.
- `Xml`: the serialiser and the content length.
- `XmlResponse`: the response parser.
- `Domain`: the pagination loop and date formatting.
- `Config`: the credentials.

Where the source changes state step by step, the model does too:
- `Xml.SerializeRequest` appends the same literal chunks, in the same order,
  as `serialize_request`. It is proved equal to a structured description of the
  envelope, `Xml.Envelope`: the prolog, one line per item, then the epilogue.
- `XmlResponse.DeserializeResponse` is the event loop. The loop's local
  variables are the fields of one `ParserState` record. The inner scan of an
  `item` tag's attributes is `XmlResponse.ScanKeyAttribute`. The loop is proved
  equal to `XmlResponse.Run`, which steps through the events with
  `XmlResponse.Step` until `Eof` or a reader error.
- `Domain.GetDomainsByExpireDate` is the page loop. It is proved to send
  exactly the requests for pages 0 to k, where k is the first page that stops
  the loop. Its result is proved equal to `Domain.Listing`.

The inputs of the model:
- The reader's events are a sequence of `XmlResponse.Event` values. Running off
  the end of the sequence counts as `Eof`.
- The server's answers are a script: the k-th call of `send_request` returns the
  k-th outcome.
- The two environment variables are `Option<string>` inputs.

## Model

| member | source | states |
|---|---|---|
| Types.Endpoint | src/opensrs/types.rs:14-19 | each environment's endpoint is an https URL ending in `opensrs.net:55443` |
| Types.EndpointInjective | src/opensrs/types.rs:14-19 | the two environments get different endpoints, so they never share a URL |
| Xml.SerializeRequest | src/opensrs/xml.rs:8-76 | the method always succeeds, and its text is exactly `Envelope(request)` |
| Xml.EnvelopeStart | src/opensrs/xml.rs:9-20 | the envelope begins with the XML declaration, a newline and the DOCTYPE |
| Xml.EnvelopeEnd | src/opensrs/xml.rs:64-75 | the envelope ends with `</OPS_envelope>` and a newline |
| Xml.EnvelopeFrame | src/opensrs/xml.rs:9-75 | both ends of the envelope together |
| Xml.EnvelopeItemAt | src/opensrs/xml.rs:19-62 | every item of the request appears verbatim as `<item key="K">V</item>` at its position, with the value unescaped |
| Xml.EnvelopeItemsInOrder | src/opensrs/xml.rs:19-62 | items appear in list order and never overlap |
| Xml.EnvelopeKeys | src/opensrs/xml.rs:19-62 | the keys are protocol, object, action, exp_from and exp_to, in that order; `limit` is present iff given and then sits at index 5; `page` is present iff given and then comes last; no key occurs twice |
| Xml.OptionalNumbersRoundTrip | src/opensrs/xml.rs:46-62 | the `limit` and `page` values are decimal text that parses back to the numbers |
| Xml.EncodeCharWellFormed | src/opensrs/xml.rs:211-213 | each character's encoding is well-formed UTF-8: the lead byte gives the length, the rest are continuation bytes, and decoding gives the character back |
| Xml.ContentLength | src/opensrs/xml.rs:211-213 | the byte count is between the character count and four times the character count |
| Xml.ContentLengthConcat | src/opensrs/xml.rs:211-213 | the byte count of a concatenation is the sum of the byte counts |
| Xml.ContentLengthAscii | src/opensrs/xml.rs:211-213 | for ASCII text the byte count is the character count |
| Xml.ContentLengthExample | src/opensrs/xml.rs:242-246 | "test 测试" is 11 bytes |
| XmlResponse.DeserializeResponse | src/opensrs/xml.rs:81-208 | the loop's result is `Run(Initial, events)` |
| XmlResponse.ScanKeyAttribute | src/opensrs/xml.rs:116-122 | the scan yields `KeyAttribute`: the last well-formed `key` attribute wins, and without one the previous key stays |
| XmlResponse.KeyAttributeAbsent | src/opensrs/xml.rs:116-122 | with no well-formed `key` attribute the current key is kept |
| XmlResponse.KeyAttributeLastWins | src/opensrs/xml.rs:116-122 | the last well-formed `key` attribute decides the current key |
| XmlResponse.RunWithoutStop | src/opensrs/xml.rs:108-207 | if no `Eof` or error occurs, every event is processed and the response is built from the final state |
| XmlResponse.ErrorAborts | src/opensrs/xml.rs:186-191 | a reader error gives `XmlDeserialize("XML parse error: " + message)` and no partial response, whatever precedes or follows it |
| XmlResponse.EofFinishes | src/opensrs/xml.rs:185-207 | `Eof` returns the fields accumulated so far and nothing after it is read |
| XmlResponse.TextOutsideDataBlockIgnored | src/opensrs/xml.rs:125-128 | text outside `data_block` changes nothing |
| XmlResponse.BlankTextIgnored | src/opensrs/xml.rs:130-133 | text that is blank after trimming changes nothing, nor does text whose unescaping failed |
| XmlResponse.ItemWithoutKeyIgnored | src/opensrs/xml.rs:114-122 | an `item` start tag without a `key` attribute keeps the current key, so it changes nothing |
| XmlResponse.TextStep | src/opensrs/xml.rs:125-178 | a non-blank text inside the data block is dispatched on the current key; any other text leaves the state as it is |
| XmlResponse.KindFrame | src/opensrs/xml.rs:135-177 | no arm of the dispatch moves the current key or leaves the data block; only the `exp_domains` arm sets `in_exp_domains`, and none clears it; only the `f_let_expire` arm, with a domain pending inside the list, touches the domain list |
| XmlResponse.IsSuccessIff | src/opensrs/xml.rs:136-138 | `is_success` becomes true iff the trimmed text is "1" or "true" in any capitalisation; no other field changes |
| XmlResponse.NumericFieldParsed | src/opensrs/xml.rs:141-143 | `page`, `total` and `remainder` take the parsed value, or 0 when the text is not a number of the field's width; no other field changes |
| XmlResponse.NumericFieldRoundTrip | src/opensrs/xml.rs:141-143 | a number that fits the field's width is read back exactly |
| XmlResponse.NumericOverflowIsZero | src/opensrs/xml.rs:141-143 | a number too wide for the field is read as 0, not wrapped |
| XmlResponse.ApplyScalarTwice | src/opensrs/xml.rs:136-143 | under a scalar key, a second value replaces the first |
| XmlResponse.LaterValueOverwrites | src/opensrs/xml.rs:136-143 | of two texts under the same scalar key, the later one decides the field |
| XmlResponse.DomainAppendedIff | src/opensrs/xml.rs:166-172 | a domain is appended exactly on an `f_let_expire` text inside the list while a domain is pending; it is the pending domain with that text, and no domain is pending afterwards; every other step keeps the list |
| XmlResponse.NameStartsOrRenames | src/opensrs/xml.rs:144-155 | a `name` text inside the list starts a pending domain with empty other fields, or renames the pending one; nothing else changes |
| XmlResponse.PendingExpiredateSet | src/opensrs/xml.rs:156-160 | with a domain pending inside the list, an `expiredate` text sets that field of the pending domain, trimmed, and nothing else |
| XmlResponse.PendingAutoRenewSet | src/opensrs/xml.rs:161-165 | with a domain pending inside the list, an `f_auto_renew` text sets that field of the pending domain, trimmed, and nothing else |
| XmlResponse.FieldWithoutPendingDropped | src/opensrs/xml.rs:156-172 | an `expiredate`, `f_auto_renew` or `f_let_expire` text with no domain pending is dropped |
| XmlResponse.DomainKeysIgnoredOutsideList | src/opensrs/xml.rs:144-176 | outside the domain list the four domain keys fall through to "no effect" |
| XmlResponse.DomainsKeepDocumentOrder | src/opensrs/xml.rs:170 | the domain list only grows at its end, so the domains keep document order |
| XmlResponse.InExpDomainsSwitch | src/opensrs/xml.rs:175 | `in_exp_domains` is switched on only by a non-blank text under the key `exp_domains` inside the data block, and it is never switched off |
| XmlResponse.DomainsNeedFlag | src/opensrs/xml.rs:144-175 | no domain is collected unless `in_exp_domains` ends up set |
| XmlResponse.DataBlockClosed | src/opensrs/xml.rs:179-184 | `</data_block>` clears `in_data_block`, so the text after it is ignored |
| XmlResponse.TextsUnderOtherKeysCollectNothing | src/opensrs/xml.rs:175 | if every text sits directly under an item whose key differs from `exp_domains`, no domain is collected |
| XmlResponse.NestedListingCollectsNothing | src/opensrs/xml.rs:175 | as written, the loop collects nothing from a record nested inside the `exp_domains` item, as OpenSRS nests it |
| XmlResponse.NestedListingCollectedWhenCorrected | src/opensrs/xml.rs:144-175 | when `in_exp_domains` is set at the start of the `exp_domains` item, the nested record is collected with its trimmed name and `f_let_expire` |
| XmlResponse.NestedRecordsCollectNothing | src/opensrs/xml.rs:175 | as written, the loop collects nothing from a nested listing of any number of records |
| XmlResponse.NestedRecordsCollectedWhenCorrected | src/opensrs/xml.rs:144-175 | with the correction, a nested listing of any number of records yields one domain per record, in order, each with its four fields trimmed |
| XmlResponse.CorrectionIsLocal | src/opensrs/xml.rs:110-124 | the corrected step differs from the original only at the start tag of the item keyed `exp_domains` |
| Domain.FormatDate | src/opensrs/domain.rs:37-38 | `%Y-%m-%d` text is ten characters: four digits, a dash, two digits, a dash and two digits |
| Domain.FormatDateRoundTrip | src/opensrs/domain.rs:37-38 | year, month and day can be read back from the formatted text |
| Domain.FormatDateInjective | src/opensrs/domain.rs:37-38 | different dates format differently |
| Domain.PageRequest | src/opensrs/domain.rs:32-42 | every request is XCP/DOMAIN/GET_DOMAINS_BY_EXPIREDATE with the formatted dates, `limit` 40, and its page number |
| Domain.FirstStop | src/opensrs/domain.rs:44-62 | the last page requested is the first outcome that is an error, an unsuccessful response, or a page with `remainder` 0 |
| Domain.GetDomainsByExpireDate | src/opensrs/domain.rs:23-66 | the requests sent are those for pages 0, 1, …, FirstStop, in order, with no gaps or repeats; the result is `Listing(script)` |
| Domain.PagesBeforeLastHadMore | src/opensrs/domain.rs:58-62 | every page before the last one requested was successful with a nonzero remainder |
| Domain.ListingSuccessIff | src/opensrs/domain.rs:44-65 | the listing succeeds iff the last page requested is successful with `remainder` 0 |
| Domain.ListingErrors | src/opensrs/domain.rs:44-52 | a transport or parse error is returned unchanged; an unsuccessful page gives `ApiError` with its code and text, and earlier domains are dropped |
| Domain.ListingAppendsLastPage | src/opensrs/domain.rs:55-65 | on success, the result is the earlier pages' domains followed by the last page's |
| Domain.DomainsLength | src/opensrs/domain.rs:55 | the result's length is the sum of the lengths of the pages' lists, so nothing else is added |
| Domain.ListingIgnoresLaterOutcomes | src/opensrs/domain.rs:44-60 | outcomes after the last page requested do not matter, because no further page is asked for |
| Config.Message | src/config/mod.rs:15-23 | an error's text begins with "M" for a missing variable and "I" for an invalid value, and ends with the error's detail |
| Config.MessageInjective | src/config/mod.rs:15-23 | different errors display different texts |
| Config.FromEnv | src/config/mod.rs:49-73 | a missing username comes first; then a missing credential, even with a blank username; then a blank username; then a blank credential; it succeeds iff both are set and non-blank, and then with the trimmed values |
| Config.LoadedCredentialsAreTrimmed | src/config/mod.rs:69-72 | loaded credentials are non-empty, have no whitespace at either end, and are unchanged by trimming |
| Config.Available | src/config/mod.rs:78-80 | availability holds iff loading fails with neither missing-variable error |
| Config.LoadedImpliesAvailable | src/config/mod.rs:78-80 | a successful load implies availability |
| Config.AvailableButInvalid | src/config/mod.rs:57-80 | a blank username is available but invalid |
| Config.MissingBoth | src/config/mod.rs:88-96 | with neither variable set, the credentials are unavailable and loading fails on the username |
| Strings.TrimIsCore | src/config/mod.rs:57-72 | `trim` keeps a contiguous piece with only whitespace around it and none at its ends |
| Strings.TrimEmptyIff | src/config/mod.rs:57-67 | `s.trim().is_empty()` holds iff `s` is all whitespace |
| Strings.TrimIdempotent | src/config/mod.rs:69-72 | trimming twice is trimming once |
| Strings.LowerIsTrueIff | src/opensrs/xml.rs:137 | text lower-cases to "true" iff it is "true" in some capitalisation |
| Strings.DecimalRoundTrip | src/opensrs/xml.rs:141-143 | the decimal text of a value that fits parses back to that value |
| Strings.ParseRejectsOverflow | src/opensrs/xml.rs:141-143 | the decimal text of a value that does not fit is rejected |

## Left out

- `src/opensrs/auth.rs` (MD5 signing), `src/opensrs/client.rs` (HTTP POST and
  headers), `src/main.rs` (command line), `src/lib.rs` and `src/opensrs/mod.rs`
  (module wiring) are not part of this model. `send_request` is only the
  scripted outcome of each call.
- The XML reader is not modelled: tokenising, `trim_text`, entity unescaping
  and the lossy UTF-8 conversion of names. Its output is the event sequence,
  and the sequence ending stands for `Eof`.
- The `OpsEnvelope`, `OpsHeader` and `OpsBody` generic records of
  `types.rs` are not modelled, because no core operation uses them.
- `Strings.ToLower` folds ASCII letters only. Rust's `to_lowercase` folds all
  of Unicode. Only the comparison with "true" depends on it, and full folding
  only differs there for the Kelvin sign (U+212A), which lower-cases to 'k'
  and so cannot give "true".
- `Domain.Date` covers the years 0 to 9999, and days 1 to 31 of any month.
  chrono's invalid-date checks happen before the loop and are not modelled.
- Domain.GetDomainsByExpireDate: requires the first stopping page to be below
  2^32, and the script to contain a stopping outcome. The `u32` page counter
  (`page += 1` at src/opensrs/domain.rs:62) overflows exactly when the first
  2^32 answers all announce more pages. A debug build then panics, and a
  release build wraps to page 0. The requires excludes those scripts, so
  neither behaviour is modelled.
- `in_attributes` is kept in the state but nothing reads it, as in the source.
  `domain_field_key` is never used and is not modelled.
- An environment variable that is set but not valid Unicode makes
  `env::var` fail. Here it counts as unset.
- XmlResponse.DeserializeResponse: keeps the loop as written, including the
  defect under "Findings", because it models the code the client runs. The
  corrected step, `XmlResponse.StepCorrected`, is a separate definition. Every
  text-level lemma is about `ApplyText`, which both steps share: by
  `XmlResponse.CorrectionIsLocal` the two steps differ at one start tag only.
- XmlResponse.NestedRecordsCollectedWhenCorrected: requires every field of
  every record to be non-blank. The loop skips blank texts (src/opensrs/xml.rs:130-133),
  so a record with a blank name is not started, and its other fields are
  dropped or go to the record before it. Those listings are not covered.
- Xml.EnvelopeKeys: "exactly once" is stated about the items of the envelope.
  It is not stated about occurrences of the text in the whole document, since
  values are inserted without escaping and may contain any markup.

## Findings

| source | as written | input that shows it | evidently intended | confidence | as-written member | corrected member |
|---|---|---|---|---|---|---|
| src/opensrs/xml.rs:175 | `in_exp_domains` is set only by non-blank text directly under the key `exp_domains`. OpenSRS puts a `dt_array` of records there, so with whitespace trimmed no such text ever arrives. The domain arms (144-172) then never fire, and the listing comes back empty. | `NestedRecords(ds)`: data block, item `exp_domains`, `dt_array`, then for each record an item keyed by its index holding a `dt_assoc` with the items `name`, `expiredate`, `f_auto_renew` and `f_let_expire`; `NestedListing(name, letExpire)` is a smaller example with one record of two fields | set `in_exp_domains` on entering the `exp_domains` item, so every record is collected | medium, not executed | XmlResponse.NestedRecordsCollectNothing | XmlResponse.NestedRecordsCollectedWhenCorrected |

The page loop in `Domain` takes parsed responses as its input. So neither the
as-written parser nor the corrected one feeds it, and its results hold for
responses from either.
