/** SentryEnvelope::toEnvelope, and a reader after the "Serialization Format" section of Sentry's Envelopes document. */
module EnvelopeFormat {
  import opened Sequences
  import opened Utf8

  datatype Value = Text(text: string) | Number(number: int)
  type Headers = map<string, Value>

  datatype Item = Item(headers: Headers, payload: seq<byte>)

  const OPEN_BRACE: byte := 0x7B

  /** Compact JSON and the trip through QString (fromUtf8, toUtf8), left abstract. */
  datatype Codec = Codec(
    toJson: Headers -> seq<byte>,
    fromJson: seq<byte> -> Option<Headers>,
    recode: seq<byte> -> seq<byte>)
  {
    /** Compact JSON is an object on one line that parses back, with or without the newline behind it;
        recoding leaves text alone, swallows a leading byte order mark, and always gives UTF-8. */
    ghost predicate Lawful() {
      && (forall h :: OneLineObject(toJson(h)) && fromJson(toJson(h)) == Some(h) == fromJson(toJson(h) + [NEWLINE]))
      && (forall s :: IsText(s) ==> recode(s) == s)
      && (forall s :: ValidUtf8(recode(s)))
      && (forall s :: ValidUtf8(s) ==> recode(BYTE_ORDER_MARK + s) == s)
    }
  }

  predicate OneLineObject(json: seq<byte>) {
    json != [] && json[0] == OPEN_BRACE && ValidUtf8(json) && NEWLINE !in json
  }

  function WithLength(item: Item): Item {
    item.(headers := item.headers["length" := Number(|item.payload|)])
  }

  function ItemBytes(c: Codec, item: Item): seq<byte> {
    c.recode(c.toJson(WithLength(item).headers)) + [NEWLINE] + c.recode(item.payload)
  }

  /** The items, a newline between each two. */
  function Joined(c: Codec, items: seq<Item>): seq<byte> {
    if items == [] then []
    else if |items| == 1 then ItemBytes(c, items[0])
    else ItemBytes(c, items[0]) + [NEWLINE] + Joined(c, items[1..])
  }

  function Encode(c: Codec, headers: Headers, items: seq<Item>): seq<byte> {
    c.recode(c.toJson(headers)) + [NEWLINE] + c.recode(Joined(c, items))
  }

  // ---- A reader that knows nothing of the writer ----

  /** An item's header, the length it announces, and everything behind the header line. */
  datatype Front = Front(headers: Headers, length: nat, rest: seq<byte>)

  function ReadFront(c: Codec, bytes: seq<byte>): (r: Option<Front>)
    ensures r.Some? ==> |r.value.rest| < |bytes|
  {
    var pos := IndexOf(bytes, NEWLINE);
    if pos == -1 then None
    else
      var h := c.fromJson(bytes[..pos]);
      if h.None? || "length" !in h.value || !h.value["length"].Number? || h.value["length"].number < 0 then None
      else Some(Front(h.value, h.value["length"].number, bytes[pos + 1..]))
  }

  /** An item header line, then `length` bytes, then a newline or the end. */
  function ReadItems(c: Codec, bytes: seq<byte>): Option<seq<Item>>
    decreases |bytes|
  {
    if bytes == [] then Some([])
    else
      var f := ReadFront(c, bytes);
      if f.None? then None
      else
        var n, rest := f.value.length, f.value.rest;
        if n > |rest| then None
        else if n == |rest| then Some([Item(f.value.headers, rest)])
        else if rest[n] != NEWLINE then None
        else
          var more := ReadItems(c, rest[n + 1..]);
          if more.None? then None else Some([Item(f.value.headers, rest[..n])] + more.value)
  }

  datatype Envelope = Envelope(headers: Headers, items: seq<Item>)

  function ReadEnvelope(c: Codec, bytes: seq<byte>): Option<Envelope> {
    var pos := IndexOf(bytes, NEWLINE);
    if pos == -1 then None
    else
      var h, items := c.fromJson(bytes[..pos]), ReadItems(c, bytes[pos + 1..]);
      if h.None? || items.None? then None else Some(Envelope(h.value, items.value))
  }

  /** QFile::readLine: up to and including the first newline. */
  function FirstLine(bytes: seq<byte>): seq<byte> {
    bytes[..IndexOf(bytes, NEWLINE) + 1]
  }

  // ---- Round trip ----

  predicate TextPayloads(items: seq<Item>) {
    forall i :: 0 <= i < |items| ==> IsText(items[i].payload)
  }

  function WithLengths(items: seq<Item>): (r: seq<Item>)
    ensures |r| == |items| && forall i :: 0 <= i < |items| ==> r[i] == WithLength(items[i])
  {
    seq(|items|, i requires 0 <= i < |items| => WithLength(items[i]))
  }

  lemma JsonIsText(c: Codec, h: Headers)
    requires c.Lawful()
    ensures OneLineObject(c.toJson(h)) && c.recode(c.toJson(h)) == c.toJson(h)
  {
    assert !(BYTE_ORDER_MARK <= c.toJson(h)) by {
      assert c.toJson(h)[0] != BYTE_ORDER_MARK[0];
    }
  }

  /** Whatever the payload, what is written for an item is UTF-8 behind an opening brace. */
  lemma ItemBytesAre(c: Codec, item: Item)
    requires c.Lawful()
    ensures ItemBytes(c, item) == c.toJson(WithLength(item).headers) + [NEWLINE] + c.recode(item.payload)
    ensures ValidUtf8(ItemBytes(c, item)) && ItemBytes(c, item) != [] && ItemBytes(c, item)[0] == OPEN_BRACE
  {
    var json := c.toJson(WithLength(item).headers);
    JsonIsText(c, WithLength(item).headers);
    ValidAscii(NEWLINE);
    ValidConcat(json, [NEWLINE]);
    ValidConcat(json + [NEWLINE], c.recode(item.payload));
  }

  lemma {:induction false} JoinedIsText(c: Codec, items: seq<Item>)
    requires c.Lawful()
    ensures ValidUtf8(Joined(c, items))
    ensures items != [] ==> Joined(c, items) != [] && Joined(c, items)[0] == OPEN_BRACE
    ensures IsText(Joined(c, items)) && c.recode(Joined(c, items)) == Joined(c, items)
  {
    if items != [] {
      ItemBytesAre(c, items[0]);
      if |items| > 1 {
        JoinedIsText(c, items[1..]);
        ValidAscii(NEWLINE);
        ValidConcat(ItemBytes(c, items[0]), [NEWLINE]);
        ValidConcat(ItemBytes(c, items[0]) + [NEWLINE], Joined(c, items[1..]));
      }
    }
  }

  /** A header line in front of anything is found again. */
  lemma HeaderLine(c: Codec, h: Headers, rest: seq<byte>)
    requires c.Lawful()
    ensures var bytes := c.toJson(h) + [NEWLINE] + rest;
            var pos := IndexOf(bytes, NEWLINE);
            && pos == |c.toJson(h)| && bytes[..pos] == c.toJson(h) && bytes[pos + 1..] == rest
            && FirstLine(bytes) == c.toJson(h) + [NEWLINE]
  {
    JsonIsText(c, h);
    var json := c.toJson(h);
    var bytes := json + [NEWLINE] + rest;
    assert bytes[..|json|] == json;
    FirstIndex(bytes, NEWLINE, |json|);
  }

  lemma ReadsFront(c: Codec, item: Item, tail: seq<byte>)
    requires c.Lawful()
    ensures ReadFront(c, c.toJson(WithLength(item).headers) + [NEWLINE] + tail)
         == Some(Front(WithLength(item).headers, |item.payload|, tail))
  {
    HeaderLine(c, WithLength(item).headers, tail);
  }

  lemma ReadsLastItem(c: Codec, item: Item)
    requires c.Lawful() && IsText(item.payload)
    ensures ReadItems(c, ItemBytes(c, item)) == Some([WithLength(item)])
  {
    ItemBytesAre(c, item);
    ReadsFront(c, item, item.payload);
  }

  /** What the reader does when more than the payload is behind the header line. */
  lemma ReadsBehindHeader(c: Codec, item: Item, tail: seq<byte>)
    requires c.Lawful() && |item.payload| < |tail| && tail[|item.payload|] == NEWLINE
    ensures var n := |item.payload|;
            var more := ReadItems(c, tail[n + 1..]);
            ReadItems(c, c.toJson(WithLength(item).headers) + [NEWLINE] + tail)
            == if more.None? then None else Some([Item(WithLength(item).headers, tail[..n])] + more.value)
  {
    ReadsFront(c, item, tail);
  }

  lemma PayloadThenRest(payload: seq<byte>, rest: seq<byte>)
    ensures var tail := payload + [NEWLINE] + rest;
            tail[|payload|] == NEWLINE && tail[..|payload|] == payload && tail[|payload| + 1..] == rest
  {
  }

  lemma Reassociate(json: seq<byte>, payload: seq<byte>, rest: seq<byte>)
    ensures json + [NEWLINE] + payload + [NEWLINE] + rest == json + [NEWLINE] + (payload + [NEWLINE] + rest)
  {
  }

  lemma ReadsItemBefore(c: Codec, item: Item, rest: seq<byte>, more: seq<Item>)
    requires c.Lawful() && IsText(item.payload)
    requires ReadItems(c, rest) == Some(more)
    ensures ReadItems(c, ItemBytes(c, item) + [NEWLINE] + rest) == Some([WithLength(item)] + more)
  {
    ItemBytesAre(c, item);
    var json, tail := c.toJson(WithLength(item).headers), item.payload + [NEWLINE] + rest;
    PayloadThenRest(item.payload, rest);
    ReadsBehindHeader(c, item, tail);
    Reassociate(json, item.payload, rest);
  }

  lemma WithLengthsCons(items: seq<Item>)
    requires items != []
    ensures WithLengths(items) == [WithLength(items[0])] + WithLengths(items[1..])
  {
  }

  lemma {:induction false} ReadsJoined(c: Codec, items: seq<Item>)
    requires c.Lawful() && TextPayloads(items)
    ensures ReadItems(c, Joined(c, items)) == Some(WithLengths(items))
  {
    if items != [] {
      WithLengthsCons(items);
      if |items| == 1 {
        ReadsLastItem(c, items[0]);
        assert WithLengths(items) == [WithLength(items[0])];
      } else {
        ReadsJoined(c, items[1..]);
        ReadsItemBefore(c, items[0], Joined(c, items[1..]), WithLengths(items[1..]));
      }
    }
  }

  /** The reader of an envelope finds its headers, and reads the items from what was joined. */
  lemma ReadsEncoded(c: Codec, headers: Headers, items: seq<Item>)
    requires c.Lawful()
    ensures var read := ReadItems(c, Joined(c, items));
            ReadEnvelope(c, Encode(c, headers, items))
            == if read.None? then None else Some(Envelope(headers, read.value))
    ensures c.fromJson(FirstLine(Encode(c, headers, items))) == Some(headers)
  {
    JsonIsText(c, headers);
    JoinedIsText(c, items);
    HeaderLine(c, headers, Joined(c, items));
  }

  /** Main framing result: payloads may contain newlines or be empty, the reader recovers every header and payload. */
  lemma RoundTrip(c: Codec, headers: Headers, items: seq<Item>)
    requires c.Lawful() && TextPayloads(items)
    ensures ReadEnvelope(c, Encode(c, headers, items)) == Some(Envelope(headers, WithLengths(items)))
  {
    ReadsEncoded(c, headers, items);
    ReadsJoined(c, items);
  }

  /** The first line alone gives the envelope header, whatever the items are. */
  lemma FirstLineIsHeader(c: Codec, headers: Headers, items: seq<Item>)
    requires c.Lawful()
    ensures c.fromJson(FirstLine(Encode(c, headers, items))) == Some(headers)
  {
    ReadsEncoded(c, headers, items);
  }
}
