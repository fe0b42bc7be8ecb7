/**
 * The request half of the XCP wire format (src/opensrs/xml.rs): the request
 * serialiser and the Content-Length computation. The response parser is
 * module XmlResponse.
 */
module Xml {
  import opened Wrappers
  import opened Strings
  import opened Types
  import opened Errors

  // ---------------------------------------------------------------------
  // Request serialisation
  // ---------------------------------------------------------------------

  /** One `<item key="K">V</item>` entry of a `dt_assoc`. */
  datatype Item = Item(key: string, value: string)

  const XmlDeclaration: string := "<?xml version='1.0' encoding='UTF-8' standalone='no' ?>"
  const Doctype: string := "<!DOCTYPE OPS_envelope SYSTEM 'ops.dtd'>"
  const EnvelopeClose: string := "</OPS_envelope>\n"

  /** Indentation of the two levels that hold items. */
  const I8: string := "        "
  const I12: string := "            "

  /** A new line at the given indentation. */
  function Line(indent: string, text: string): string {
    "\n" + indent + text
  }

  function OpenTag(key: string): string {
    "<item key=\"" + key + "\">"
  }

  /** The text of one item; key and value are inserted verbatim, without escaping. */
  function ItemXml(it: Item): string {
    OpenTag(it.key) + it.value + "</item>"
  }

  /** Appends each item on a line of its own, in order. */
  function AppendItems(acc: string, indent: string, items: seq<Item>): string
    decreases |items|
  {
    if items == [] then acc else AppendItems(acc + Line(indent, ItemXml(items[0])), indent, items[1..])
  }

  /** Everything before the first item: declaration, DOCTYPE, header and the
      opening of the outer `dt_assoc`. */
  const Prolog: string :=
    XmlDeclaration + "\n" + Doctype + "\n<OPS_envelope>" + "\n  <header>" + "\n    <version>0.9</version>"
    + "\n  </header>" + "\n  <body>" + "\n    <data_block>" + "\n      <dt_assoc>"

  /** Between the top-level items and the request attributes. */
  const AttributesOpen: string := "\n        <item key=\"attributes\">" + "\n          <dt_assoc>"

  /** Everything after the last attribute item. */
  const Epilogue: string :=
    "\n          </dt_assoc>" + "\n        </item>" + "\n      </dt_assoc>" + "\n    </data_block>"
    + "\n  </body>" + "\n" + EnvelopeClose

  /** The top-level items of a request, in the order they are sent. */
  function TopItems(req: Request): seq<Item> {
    [Item("protocol", req.protocol), Item("object", req.obj), Item("action", req.action)]
  }

  /** The attribute items of a request: the optional `limit` and `page` are sent
      only when present, as decimal numbers. */
  function AttrItems(attrs: RequestAttrs): seq<Item> {
    [Item("exp_from", attrs.expFrom), Item("exp_to", attrs.expTo)]
    + (if attrs.limit.Some? then [Item("limit", Decimal(attrs.limit.value))] else [])
    + (if attrs.page.Some? then [Item("page", Decimal(attrs.page.value))] else [])
  }

  /** Every item of a request, top level first. */
  function AllItems(req: Request): seq<Item> {
    TopItems(req) + AttrItems(req.attributes)
  }

  /** The text that precedes the attribute items. */
  function BeforeAttributes(req: Request): string {
    AppendItems(Prolog, I8, TopItems(req)) + AttributesOpen
  }

  /** The XCP envelope of a request. */
  function Envelope(req: Request): string {
    AppendItems(BeforeAttributes(req), I12, AttrItems(req.attributes)) + Epilogue
  }

  lemma {:induction false} AppendOne(acc: string, indent: string, items: seq<Item>, it: Item)
    ensures AppendItems(acc, indent, items + [it]) == AppendItems(acc, indent, items) + Line(indent, ItemXml(it))
    decreases |items|
  {
    if items != [] {
      assert (items + [it])[1..] == items[1..] + [it];
      AppendOne(acc + Line(indent, ItemXml(items[0])), indent, items[1..], it);
    }
  }

  /** One step of the serialiser: after the opening tag of an item, its value
      and a chunk that closes the item and continues with `next`. */
  lemma PushValue(pre: string, indent: string, items: seq<Item>, key: string, value: string,
                  open: string, chunk: string, next: string)
    requires open == "\n" + indent + OpenTag(key)
    requires chunk == "</item>" + next
    ensures AppendItems(pre, indent, items) + open + value + chunk
         == AppendItems(pre, indent, items + [Item(key, value)]) + next
  {
    AppendOne(pre, indent, items, Item(key, value));
  }

  /** The last step for an item: its value and its closing tag. */
  lemma PushLastValue(pre: string, indent: string, items: seq<Item>, key: string, value: string, open: string)
    requires open == "\n" + indent + OpenTag(key)
    ensures AppendItems(pre, indent, items) + open + value + "</item>"
         == AppendItems(pre, indent, items + [Item(key, value)])
  {
    AppendOne(pre, indent, items, Item(key, value));
  }

  // The literal chunks of the serialiser, split at item boundaries.
  lemma ProtocolOpen() ensures "\n        <item key=\"protocol\">" == "\n" + I8 + OpenTag("protocol") {}
  lemma ObjectOpen() ensures "\n        <item key=\"object\">" == "\n" + I8 + OpenTag("object") {}
  lemma ActionOpen() ensures "\n        <item key=\"action\">" == "\n" + I8 + OpenTag("action") {}
  lemma ExpFromOpen() ensures "\n            <item key=\"exp_from\">" == "\n" + I12 + OpenTag("exp_from") {}
  lemma ExpToOpen() ensures "\n            <item key=\"exp_to\">" == "\n" + I12 + OpenTag("exp_to") {}
  lemma LimitOpen() ensures "\n            <item key=\"limit\">" == "\n" + I12 + OpenTag("limit") {}
  lemma PageOpen() ensures "\n            <item key=\"page\">" == "\n" + I12 + OpenTag("page") {}
  lemma ObjectChunk() ensures "</item>\n        <item key=\"object\">" == "</item>" + "\n        <item key=\"object\">" {}
  lemma ActionChunk() ensures "</item>\n        <item key=\"action\">" == "</item>" + "\n        <item key=\"action\">" {}
  lemma ExpToChunk() ensures "</item>\n            <item key=\"exp_to\">" == "</item>" + "\n            <item key=\"exp_to\">" {}

  /** From the last top-level item to the first attribute item. */
  lemma AttributesChunk(req: Request)
    ensures AppendItems(Prolog, I8, [Item("protocol", req.protocol), Item("object", req.obj)]) + "\n        <item key=\"action\">"
            + req.action + ("</item>" + "\n        <item key=\"attributes\">" + "\n          <dt_assoc>" + "\n            <item key=\"exp_from\">")
         == AppendItems(BeforeAttributes(req), I12, []) + "\n            <item key=\"exp_from\">"
  {
    var open := "\n            <item key=\"exp_from\">";
    ActionOpen();
    Regroup("</item>", "\n        <item key=\"attributes\">", "\n          <dt_assoc>");
    Regroup("</item>", AttributesOpen, open);
    PushValue(Prolog, I8, [Item("protocol", req.protocol), Item("object", req.obj)], "action", req.action,
              "\n        <item key=\"action\">",
              "</item>" + "\n        <item key=\"attributes\">" + "\n          <dt_assoc>" + open, AttributesOpen + open);
    assert [Item("protocol", req.protocol), Item("object", req.obj)] + [Item("action", req.action)] == TopItems(req);
  }

  lemma Regroup(x: string, y: string, z: string)
    ensures x + (y + z) == x + y + z
  {
  }

  /** `serialize_request`: appends the fixed envelope text and the request's
      values to a growing string. It never fails. */
  method SerializeRequest(request: Request) returns (r: Result<string, OpenSrsError>)
    ensures r == Success(Envelope(request))
  {
    var attrs := request.attributes;
    var xml := "<?xml version='1.0' encoding='UTF-8' standalone='no' ?>" + "\n" + "<!DOCTYPE OPS_envelope SYSTEM 'ops.dtd'>"
      + "\n<OPS_envelope>" + "\n  <header>" + "\n    <version>0.9</version>" + "\n  </header>" + "\n  <body>"
      + "\n    <data_block>" + "\n      <dt_assoc>" + "\n        <item key=\"protocol\">";
    xml := xml + request.protocol;
    xml := xml + "</item>\n        <item key=\"object\">";
    ProtocolOpen();
    ObjectChunk();
    PushValue(Prolog, I8, [], "protocol", request.protocol, "\n        <item key=\"protocol\">",
              "</item>\n        <item key=\"object\">", "\n        <item key=\"object\">");
    assert xml == AppendItems(Prolog, I8, [Item("protocol", request.protocol)]) + "\n        <item key=\"object\">";
    xml := xml + request.obj;
    xml := xml + "</item>\n        <item key=\"action\">";
    ObjectOpen();
    ActionChunk();
    PushValue(Prolog, I8, [Item("protocol", request.protocol)], "object", request.obj, "\n        <item key=\"object\">",
              "</item>\n        <item key=\"action\">", "\n        <item key=\"action\">");
    assert xml == AppendItems(Prolog, I8, [Item("protocol", request.protocol), Item("object", request.obj)])
                  + "\n        <item key=\"action\">";
    xml := xml + request.action;
    xml := xml + ("</item>" + "\n        <item key=\"attributes\">" + "\n          <dt_assoc>" + "\n            <item key=\"exp_from\">");
    AttributesChunk(request);
    ghost var before := BeforeAttributes(request);
    assert xml == AppendItems(before, I12, []) + "\n            <item key=\"exp_from\">";
    xml := xml + attrs.expFrom;
    xml := xml + "</item>\n            <item key=\"exp_to\">";
    ExpFromOpen();
    ExpToChunk();
    PushValue(before, I12, [], "exp_from", attrs.expFrom, "\n            <item key=\"exp_from\">",
              "</item>\n            <item key=\"exp_to\">", "\n            <item key=\"exp_to\">");
    assert xml == AppendItems(before, I12, [Item("exp_from", attrs.expFrom)]) + "\n            <item key=\"exp_to\">";
    xml := xml + attrs.expTo;
    xml := xml + "</item>";
    ExpToOpen();
    PushLastValue(before, I12, [Item("exp_from", attrs.expFrom)], "exp_to", attrs.expTo, "\n            <item key=\"exp_to\">");
    ghost var items := [Item("exp_from", attrs.expFrom), Item("exp_to", attrs.expTo)];
    assert xml == AppendItems(before, I12, items);

    if attrs.limit.Some? {
      xml := xml + "\n            <item key=\"limit\">";
      xml := xml + Decimal(attrs.limit.value);
      xml := xml + "</item>";
      LimitOpen();
      PushLastValue(before, I12, items, "limit", Decimal(attrs.limit.value), "\n            <item key=\"limit\">");
      items := items + [Item("limit", Decimal(attrs.limit.value))];
      assert xml == AppendItems(before, I12, items);
    }

    if attrs.page.Some? {
      xml := xml + "\n            <item key=\"page\">";
      xml := xml + Decimal(attrs.page.value);
      xml := xml + "</item>";
      PageOpen();
      PushLastValue(before, I12, items, "page", Decimal(attrs.page.value), "\n            <item key=\"page\">");
      items := items + [Item("page", Decimal(attrs.page.value))];
      assert xml == AppendItems(before, I12, items);
    }
    assert items == AttrItems(attrs);
    assert xml == AppendItems(before, I12, AttrItems(attrs));

    xml := xml + ("\n          </dt_assoc>" + "\n        </item>" + "\n      </dt_assoc>" + "\n    </data_block>"
      + "\n  </body>" + "\n" + "</OPS_envelope>\n");
    r := Success(xml);
  }

  // Properties of the envelope

  /** Total length of the lines that `AppendItems` adds. */
  function LinesLength(indent: string, items: seq<Item>): nat
    decreases |items|
  {
    if items == [] then 0 else |Line(indent, ItemXml(items[0]))| + LinesLength(indent, items[1..])
  }

  lemma {:induction false} LinesLengthConcat(indent: string, a: seq<Item>, b: seq<Item>)
    ensures LinesLength(indent, a + b) == LinesLength(indent, a) + LinesLength(indent, b)
    decreases |a|
  {
    if a == [] {
      assert a + b == b;
    } else {
      assert (a + b)[1..] == a[1..] + b;
      LinesLengthConcat(indent, a[1..], b);
    }
  }

  /** `AppendItems` only extends its accumulator, by exactly the lines' length. */
  lemma {:induction false} AppendItemsExtends(acc: string, indent: string, items: seq<Item>)
    ensures acc <= AppendItems(acc, indent, items)
    ensures |AppendItems(acc, indent, items)| == |acc| + LinesLength(indent, items)
    decreases |items|
  {
    if items != [] {
      AppendItemsExtends(acc + Line(indent, ItemXml(items[0])), indent, items[1..]);
    }
  }

  /** Where the text of item `i` starts in `AppendItems(acc, indent, items)`. */
  function ItemOffset(acc: string, indent: string, items: seq<Item>, i: nat): nat
    requires i < |items|
  {
    |acc| + LinesLength(indent, items[..i]) + 1 + |indent|
  }

  /** The first item sits right after the accumulator, a newline and the indentation. */
  lemma FirstItemAt(acc: string, indent: string, items: seq<Item>)
    requires items != []
    ensures ItemOffset(acc, indent, items, 0) + |ItemXml(items[0])| <= |AppendItems(acc, indent, items)|
    ensures AppendItems(acc, indent, items)[ItemOffset(acc, indent, items, 0)..ItemOffset(acc, indent, items, 0) + |ItemXml(items[0])|]
         == ItemXml(items[0])
  {
    var x := ItemXml(items[0]);
    var head := acc + "\n" + indent;
    var acc' := head + x;
    assert acc' == acc + Line(indent, x);
    assert AppendItems(acc, indent, items) == AppendItems(acc', indent, items[1..]);
    AppendItemsExtends(acc', indent, items[1..]);
    assert items[..0] == [];
    assert LinesLength(indent, items[..0]) == 0;
    assert ItemOffset(acc, indent, items, 0) == |head|;
    assert acc'[|head|..|head| + |x|] == x;
    SliceOfPrefix(acc', AppendItems(acc', indent, items[1..]), |head|, |head| + |x|);
  }

  /** Item `i` is found, verbatim, at its offset. */
  lemma {:induction false} AppendItemsAt(acc: string, indent: string, items: seq<Item>, i: nat)
    requires i < |items|
    ensures ItemOffset(acc, indent, items, i) + |ItemXml(items[i])| <= |AppendItems(acc, indent, items)|
    ensures AppendItems(acc, indent, items)[ItemOffset(acc, indent, items, i)..ItemOffset(acc, indent, items, i) + |ItemXml(items[i])|]
         == ItemXml(items[i])
    decreases i
  {
    if i == 0 {
      FirstItemAt(acc, indent, items);
    } else {
      var line := Line(indent, ItemXml(items[0]));
      AppendItemsAt(acc + line, indent, items[1..], i - 1);
      assert items[..i] == [items[0]] + items[1..][..i - 1];
      LinesLengthConcat(indent, [items[0]], items[1..][..i - 1]);
      assert LinesLength(indent, [items[0]]) == |line|;
    }
  }

  /** Items follow each other in list order, without overlapping. */
  lemma OffsetsIncrease(acc: string, indent: string, items: seq<Item>, i: nat, j: nat)
    requires i < j < |items|
    ensures ItemOffset(acc, indent, items, i) + |ItemXml(items[i])| < ItemOffset(acc, indent, items, j)
  {
    assert items[..j] == items[..i] + [items[i]] + items[i + 1..j];
    LinesLengthConcat(indent, items[..i] + [items[i]], items[i + 1..j]);
    LinesLengthConcat(indent, items[..i], [items[i]]);
  }

  /** Where the text of the `i`-th item of the request starts in its envelope. */
  function ItemPosition(req: Request, i: nat): nat
    requires i < |AllItems(req)|
  {
    if i < 3 then ItemOffset(Prolog, I8, TopItems(req), i)
    else ItemOffset(BeforeAttributes(req), I12, AttrItems(req.attributes), i - 3)
  }

  lemma SliceOfPrefix(a: string, b: string, lo: nat, hi: nat)
    requires a <= b && lo <= hi <= |a|
    ensures hi <= |b| && b[lo..hi] == a[lo..hi]
  {
  }

  /** The envelope extends the attribute lines, which extend the text before them. */
  lemma EnvelopeExtends(req: Request)
    ensures AppendItems(Prolog, I8, TopItems(req)) <= BeforeAttributes(req)
    ensures AppendItems(BeforeAttributes(req), I12, AttrItems(req.attributes)) <= Envelope(req)
    ensures BeforeAttributes(req) <= AppendItems(BeforeAttributes(req), I12, AttrItems(req.attributes))
  {
    AppendItemsExtends(BeforeAttributes(req), I12, AttrItems(req.attributes));
  }

  lemma TopItemInEnvelope(req: Request, i: nat)
    requires i < 3
    ensures ItemOffset(Prolog, I8, TopItems(req), i) + |ItemXml(TopItems(req)[i])| <= |Envelope(req)|
    ensures Envelope(req)[ItemOffset(Prolog, I8, TopItems(req), i)..ItemOffset(Prolog, I8, TopItems(req), i) + |ItemXml(TopItems(req)[i])|]
         == ItemXml(TopItems(req)[i])
  {
    var before := BeforeAttributes(req);
    var body := AppendItems(before, I12, AttrItems(req.attributes));
    var top := AppendItems(Prolog, I8, TopItems(req));
    EnvelopeExtends(req);
    var p := ItemOffset(Prolog, I8, TopItems(req), i);
    var x := ItemXml(TopItems(req)[i]);
    AppendItemsAt(Prolog, I8, TopItems(req), i);
    SliceOfPrefix(top, before, p, p + |x|);
    SliceOfPrefix(before, body, p, p + |x|);
    SliceOfPrefix(body, Envelope(req), p, p + |x|);
  }

  lemma AttrItemInEnvelope(req: Request, k: nat)
    requires k < |AttrItems(req.attributes)|
    ensures ItemOffset(BeforeAttributes(req), I12, AttrItems(req.attributes), k) + |ItemXml(AttrItems(req.attributes)[k])| <= |Envelope(req)|
    ensures Envelope(req)[ItemOffset(BeforeAttributes(req), I12, AttrItems(req.attributes), k)
                          ..ItemOffset(BeforeAttributes(req), I12, AttrItems(req.attributes), k) + |ItemXml(AttrItems(req.attributes)[k])|]
         == ItemXml(AttrItems(req.attributes)[k])
  {
    var before := BeforeAttributes(req);
    var body := AppendItems(before, I12, AttrItems(req.attributes));
    EnvelopeExtends(req);
    var p := ItemOffset(before, I12, AttrItems(req.attributes), k);
    var x := ItemXml(AttrItems(req.attributes)[k]);
    AppendItemsAt(before, I12, AttrItems(req.attributes), k);
    SliceOfPrefix(body, Envelope(req), p, p + |x|);
  }

  /** Each item of the request appears verbatim in the envelope, at its position. */
  lemma EnvelopeItemAt(req: Request, i: nat)
    requires i < |AllItems(req)|
    ensures ItemPosition(req, i) + |ItemXml(AllItems(req)[i])| <= |Envelope(req)|
    ensures Envelope(req)[ItemPosition(req, i)..ItemPosition(req, i) + |ItemXml(AllItems(req)[i])|] == ItemXml(AllItems(req)[i])
  {
    if i < 3 {
      TopItemInEnvelope(req, i);
    } else {
      AttrItemInEnvelope(req, i - 3);
    }
  }

  /** The items appear in the envelope in the order of `AllItems`, disjointly. */
  lemma EnvelopeItemsInOrder(req: Request, i: nat, j: nat)
    requires i < j < |AllItems(req)|
    ensures ItemPosition(req, i) + |ItemXml(AllItems(req)[i])| < ItemPosition(req, j)
  {
    if j < 3 {
      OffsetsIncrease(Prolog, I8, TopItems(req), i, j);
    } else if 3 <= i {
      OffsetsIncrease(BeforeAttributes(req), I12, AttrItems(req.attributes), i - 3, j - 3);
    } else {
      AppendItemsAt(Prolog, I8, TopItems(req), i);
      assert |BeforeAttributes(req)| > |AppendItems(Prolog, I8, TopItems(req))|;
    }
  }

  /** The envelope opens with the XML declaration and the DOCTYPE, and ends
      with the closing `OPS_envelope` tag and a newline. */
  lemma EnvelopeFrame(req: Request)
    ensures XmlDeclaration + "\n" + Doctype <= Envelope(req)
    ensures |EnvelopeClose| <= |Envelope(req)| && Envelope(req)[|Envelope(req)| - |EnvelopeClose|..] == EnvelopeClose
  {
    EnvelopeStart(req);
    EnvelopeEnd(req);
  }

  lemma PrefixExtends(a: string, b: string, c: string)
    requires a <= b
    ensures a <= b + c
  {
  }

  lemma SuffixOfConcat(a: string, b: string, c: string)
    ensures |c| <= |a + (b + c)| && (a + (b + c))[|a + (b + c)| - |c|..] == c
  {
    assert a + (b + c) == (a + b) + c;
  }

  lemma EnvelopeStart(req: Request)
    ensures XmlDeclaration + "\n" + Doctype <= Envelope(req)
  {
    var before := BeforeAttributes(req);
    var top := AppendItems(Prolog, I8, TopItems(req));
    var body := AppendItems(before, I12, AttrItems(req.attributes));
    AppendItemsExtends(Prolog, I8, TopItems(req));
    AppendItemsExtends(before, I12, AttrItems(req.attributes));
    var head := XmlDeclaration + "\n" + Doctype;
    var p1 := head + "\n<OPS_envelope>";
    var p2 := p1 + "\n  <header>";
    var p3 := p2 + "\n    <version>0.9</version>";
    var p4 := p3 + "\n  </header>";
    var p5 := p4 + "\n  <body>";
    var p6 := p5 + "\n    <data_block>";
    assert Prolog == p6 + "\n      <dt_assoc>";
    PrefixExtends(head, head, "\n<OPS_envelope>");
    PrefixExtends(head, p1, "\n  <header>");
    PrefixExtends(head, p2, "\n    <version>0.9</version>");
    PrefixExtends(head, p3, "\n  </header>");
    PrefixExtends(head, p4, "\n  <body>");
    PrefixExtends(head, p5, "\n    <data_block>");
    PrefixExtends(head, p6, "\n      <dt_assoc>");
    PrefixExtends(top, top, AttributesOpen);
    PrefixExtends(body, body, Epilogue);
  }

  lemma EnvelopeEnd(req: Request)
    ensures |EnvelopeClose| <= |Envelope(req)| && Envelope(req)[|Envelope(req)| - |EnvelopeClose|..] == EnvelopeClose
  {
    var body := AppendItems(BeforeAttributes(req), I12, AttrItems(req.attributes));
    var rest := "\n          </dt_assoc>" + "\n        </item>" + "\n      </dt_assoc>" + "\n    </data_block>" + "\n  </body>" + "\n";
    assert Epilogue == rest + EnvelopeClose;
    SuffixOfConcat(body, rest, EnvelopeClose);
  }

  /** The keys of the items, in order: the five fixed ones, then `limit` exactly
      when a limit is given and `page` exactly when a page is given. */
  lemma EnvelopeKeys(req: Request)
    ensures |AllItems(req)| == 5 + (if req.attributes.limit.Some? then 1 else 0) + (if req.attributes.page.Some? then 1 else 0)
    ensures AllItems(req)[0] == Item("protocol", req.protocol) && AllItems(req)[1] == Item("object", req.obj)
         && AllItems(req)[2] == Item("action", req.action)
         && AllItems(req)[3] == Item("exp_from", req.attributes.expFrom) && AllItems(req)[4] == Item("exp_to", req.attributes.expTo)
    ensures forall i :: 0 <= i < |AllItems(req)| ==>
              (AllItems(req)[i].key == "limit" <==> req.attributes.limit.Some? && i == 5)
    ensures forall i :: 0 <= i < |AllItems(req)| ==>
              (AllItems(req)[i].key == "page" <==> req.attributes.page.Some? && i == |AllItems(req)| - 1)
    ensures forall i, j :: 0 <= i < j < |AllItems(req)| ==> AllItems(req)[i].key != AllItems(req)[j].key
  {
  }

  /** The `limit` and `page` items carry their numbers in decimal, and reading
      the text back gives the number. */
  lemma OptionalNumbersRoundTrip(req: Request)
    ensures req.attributes.limit.Some? ==>
              ParseUnsigned(AllItems(req)[5].value, U32_LIMIT) == Some(req.attributes.limit.value as nat)
    ensures req.attributes.page.Some? ==>
              ParseUnsigned(AllItems(req)[|AllItems(req)| - 1].value, U32_LIMIT) == Some(req.attributes.page.value as nat)
  {
    EnvelopeKeys(req);
    if req.attributes.limit.Some? { DecimalRoundTrip(req.attributes.limit.value, U32_LIMIT); }
    if req.attributes.page.Some? { DecimalRoundTrip(req.attributes.page.value, U32_LIMIT); }
  }

  // ---------------------------------------------------------------------
  // Content-Length
  // ---------------------------------------------------------------------

  type Byte = b: int | 0 <= b < 0x100

  /** The UTF-8 encoding of one Unicode scalar value. */
  function EncodeChar(c: char): (bytes: seq<Byte>)
    ensures 1 <= |bytes| <= 4
  {
    var n := c as int;
    if n < 0x80 then [n]
    else if n < 0x800 then [0xC0 + n / 0x40, 0x80 + n % 0x40]
    else if n < 0x1_0000 then [0xE0 + n / 0x1000, 0x80 + (n / 0x40) % 0x40, 0x80 + n % 0x40]
    else [0xF0 + n / 0x4_0000, 0x80 + (n / 0x1000) % 0x40, 0x80 + (n / 0x40) % 0x40, 0x80 + n % 0x40]
  }

  /** The sequence length a UTF-8 lead byte announces (0 for a byte that cannot lead). */
  function SequenceLength(lead: Byte): nat {
    if lead < 0x80 then 1
    else if 0xC2 <= lead < 0xE0 then 2
    else if 0xE0 <= lead < 0xF0 then 3
    else if 0xF0 <= lead < 0xF5 then 4
    else 0
  }

  /** Decodes one well-formed UTF-8 sequence. */
  function DecodeSequence(bytes: seq<Byte>): int
    requires 1 <= |bytes| <= 4
  {
    var b := seq(|bytes|, k requires 0 <= k < |bytes| => bytes[k] as int);
    if |b| == 1 then b[0]
    else if |b| == 2 then (b[0] - 0xC0) * 0x40 + (b[1] - 0x80)
    else if |b| == 3 then (b[0] - 0xE0) * 0x1000 + (b[1] - 0x80) * 0x40 + (b[2] - 0x80)
    else (b[0] - 0xF0) * 0x4_0000 + (b[1] - 0x80) * 0x1000 + (b[2] - 0x80) * 0x40 + (b[3] - 0x80)
  }

  lemma TwoByteWellFormed(n: int)
    requires 0x80 <= n < 0x800
    ensures 0xC2 <= 0xC0 + n / 0x40 < 0xE0
    ensures (n / 0x40) * 0x40 + n % 0x40 == n
  {
  }

  lemma ThreeByteWellFormed(n: int)
    requires 0x800 <= n < 0x1_0000
    ensures 0xE0 <= 0xE0 + n / 0x1000 < 0xF0
    ensures (n / 0x1000) * 0x1000 + ((n / 0x40) % 0x40) * 0x40 + n % 0x40 == n
  {
    var hi, mid, lo := n / 0x1000, (n / 0x40) % 0x40, n % 0x40;
    assert n / 0x40 == hi * 0x40 + mid;
    assert n == (n / 0x40) * 0x40 + lo;
  }

  lemma FourByteWellFormed(n: int)
    requires 0x1_0000 <= n < 0x11_0000
    ensures 0xF0 <= 0xF0 + n / 0x4_0000 < 0xF5
    ensures (n / 0x4_0000) * 0x4_0000 + ((n / 0x1000) % 0x40) * 0x1000 + ((n / 0x40) % 0x40) * 0x40 + n % 0x40 == n
  {
    var top, hi, mid, lo := n / 0x4_0000, (n / 0x1000) % 0x40, (n / 0x40) % 0x40, n % 0x40;
    assert n / 0x1000 == top * 0x40 + hi;
    assert n / 0x40 == (n / 0x1000) * 0x40 + mid;
    assert n == (n / 0x40) * 0x40 + lo;
  }

  /** The encoding of a character is a well-formed UTF-8 sequence: its lead
      byte announces its length, the other bytes are continuation bytes, and
      decoding it gives the character back. */
  lemma EncodeCharWellFormed(c: char)
    ensures SequenceLength(EncodeChar(c)[0]) == |EncodeChar(c)|
    ensures forall k :: 1 <= k < |EncodeChar(c)| ==> 0x80 <= EncodeChar(c)[k] < 0xC0
    ensures DecodeSequence(EncodeChar(c)) == c as int
  {
    var n := c as int;
    if 0x80 <= n < 0x800 {
      TwoByteWellFormed(n);
    } else if 0x800 <= n < 0x1_0000 {
      ThreeByteWellFormed(n);
    } else if 0x1_0000 <= n {
      FourByteWellFormed(n);
    }
  }

  /** The UTF-8 encoding of a string: the bytes `str::as_bytes` exposes. */
  function Utf8(s: string): (bytes: seq<Byte>)
    ensures |s| <= |bytes| <= 4 * |s|
  {
    if s == [] then [] else EncodeChar(s[0]) + Utf8(s[1..])
  }

  /** `calculate_content_length`: the number of bytes of the UTF-8 encoding. */
  function ContentLength(xml: string): (n: nat)
    ensures |xml| <= n <= 4 * |xml|
  {
    |Utf8(xml)|
  }

  lemma {:induction false} Utf8Concat(a: string, b: string)
    ensures Utf8(a + b) == Utf8(a) + Utf8(b)
    decreases |a|
  {
    if a == [] {
      assert a + b == b;
    } else {
      assert (a + b)[1..] == a[1..] + b;
      Utf8Concat(a[1..], b);
    }
  }

  /** The content length of a concatenation is the sum of the parts' lengths. */
  lemma ContentLengthConcat(a: string, b: string)
    ensures ContentLength(a + b) == ContentLength(a) + ContentLength(b)
  {
    Utf8Concat(a, b);
  }

  /** For ASCII text the byte count is the character count. */
  lemma {:induction false} ContentLengthAscii(s: string)
    requires forall i :: 0 <= i < |s| ==> s[i] as int < 0x80
    ensures ContentLength(s) == |s|
    decreases |s|
  {
    if s != [] {
      ContentLengthAscii(s[1..]);
    }
  }

  /** "test 测试": five ASCII bytes and two three-byte characters. */
  lemma ContentLengthExample()
    ensures ContentLength("test \U{6D4B}\U{8BD5}") == 11
  {
    var s := "test \U{6D4B}\U{8BD5}";
    assert s == "test " + "\U{6D4B}\U{8BD5}";
    ContentLengthConcat("test ", "\U{6D4B}\U{8BD5}");
    ContentLengthAscii("test ");
    assert "\U{6D4B}\U{8BD5}"[1..] == "\U{8BD5}";
  }
}
