/** Which envelopes survive the trip through QString: the length header counts the bytes before it. */
module EnvelopeLimits {
  import opened Sequences
  import opened Utf8
  import opened EnvelopeFormat

  predicate ValidPayloads(items: seq<Item>) {
    forall i :: 0 <= i < |items| ==> ValidUtf8(items[i].payload)
  }

  lemma BehindHeaderIsValid(c: Codec, bytes: seq<byte>)
    requires ValidUtf8(bytes) && ReadFront(c, bytes).Some?
    ensures ValidUtf8(ReadFront(c, bytes).value.rest)
  {
    var pos := IndexOf(bytes, NEWLINE);
    assert bytes == bytes[..pos] + [NEWLINE] + bytes[pos + 1..];
    ValidAroundNewline(bytes[..pos], bytes[pos + 1..]);
  }

  lemma ValidAtNewline(bytes: seq<byte>, n: nat)
    requires n < |bytes| && bytes[n] == NEWLINE && ValidUtf8(bytes)
    ensures ValidUtf8(bytes[..n]) && ValidUtf8(bytes[n + 1..])
  {
    assert bytes == bytes[..n] + [NEWLINE] + bytes[n + 1..];
    ValidAroundNewline(bytes[..n], bytes[n + 1..]);
  }

  lemma ValidPayloadsCons(item: Item, items: seq<Item>)
    requires ValidUtf8(item.payload) && ValidPayloads(items)
    ensures ValidPayloads([item] + items)
  {
  }

  /** What a reader goes on with behind the first item. */
  lemma ReadsOn(c: Codec, bytes: seq<byte>)
    requires bytes != [] && ReadItems(c, bytes).Some?
    ensures ReadFront(c, bytes).Some?
    ensures var f := ReadFront(c, bytes).value;
            if f.length >= |f.rest| then ReadItems(c, bytes).value == [Item(f.headers, f.rest)]
            else
              && f.rest[f.length] == NEWLINE
              && var more := ReadItems(c, f.rest[f.length + 1..]);
                 more.Some? && ReadItems(c, bytes).value == [Item(f.headers, f.rest[..f.length])] + more.value
  {
  }

  /** Whatever lengths the headers announce, a reader of UTF-8 cuts out UTF-8 payloads. */
  lemma {:induction false} ReadPayloadsAreValid(c: Codec, bytes: seq<byte>)
    requires ValidUtf8(bytes) && ReadItems(c, bytes).Some?
    ensures ValidPayloads(ReadItems(c, bytes).value)
    decreases |bytes|
  {
    if bytes != [] {
      ReadsOn(c, bytes);
      BehindHeaderIsValid(c, bytes);
      var f := ReadFront(c, bytes).value;
      if f.length < |f.rest| {
        ValidAtNewline(f.rest, f.length);
        var more := f.rest[f.length + 1..];
        ReadPayloadsAreValid(c, more);
        ValidPayloadsCons(Item(f.headers, f.rest[..f.length]), ReadItems(c, more).value);
      } else {
        ValidPayloadsCons(Item(f.headers, f.rest), []);
        assert [Item(f.headers, f.rest)] + [] == [Item(f.headers, f.rest)];
      }
    }
  }

  /** What is written behind the header line of the first of the items. */
  function Tail(c: Codec, items: seq<Item>): seq<byte>
    requires items != []
  {
    if |items| == 1 then c.recode(items[0].payload)
    else c.recode(items[0].payload) + [NEWLINE] + Joined(c, items[1..])
  }

  lemma ReadsTail(c: Codec, items: seq<Item>)
    requires c.Lawful() && items != []
    ensures ReadFront(c, Joined(c, items))
         == Some(Front(WithLength(items[0]).headers, |items[0].payload|, Tail(c, items)))
  {
    ItemBytesAre(c, items[0]);
    var json, written := c.toJson(WithLength(items[0]).headers), c.recode(items[0].payload);
    ReadsFront(c, items[0], Tail(c, items));
    if |items| > 1 {
      Reassociate(json, written, Joined(c, items[1..]));
    }
  }

  /** A mark in front and something with a newline behind cannot be mistaken for each other. */
  lemma MarkIsNotNewline(s: seq<byte>, x: seq<byte>)
    requires x != [] && x[0] == NEWLINE
    ensures BYTE_ORDER_MARK + s != s + x
  {
    assert NEWLINE in x;
    assert multiset(BYTE_ORDER_MARK + s)[NEWLINE] == multiset(s)[NEWLINE];
    assert multiset(s + x)[NEWLINE] > multiset(s)[NEWLINE];
  }

  /** A payload behind a byte order mark is written without it, so a reader takes it for something else. */
  lemma MarkedPayloadIsLost(c: Codec, items: seq<Item>)
    requires c.Lawful() && items != []
    requires ValidUtf8(items[0].payload) && BYTE_ORDER_MARK <= items[0].payload
    ensures var n, tail := |items[0].payload|, Tail(c, items);
            n <= |tail| ==> tail[..n] != items[0].payload
  {
    var p := items[0].payload;
    var s := p[3..];
    assert p == BYTE_ORDER_MARK + s;
    MarkIsText(s);
    assert c.recode(p) == s;
    var tail := Tail(c, items);
    if |p| <= |tail| {
      assert tail[..|p|] == s + tail[|s|..|p|];
      MarkIsNotNewline(s, tail[|s|..|p|]);
    }
  }

  lemma MarkIsText(s: seq<byte>)
    requires ValidUtf8(BYTE_ORDER_MARK + s)
    ensures ValidUtf8(s)
  {
    MarkIsValid();
    AfterConcat(BYTE_ORDER_MARK, s);
  }

  /** The first item a reader finds has what is cut out of the tail as its payload. */
  lemma FirstPayloadIsCut(c: Codec, items: seq<Item>)
    requires c.Lawful() && items != [] && ReadItems(c, Joined(c, items)) == Some(WithLengths(items))
    ensures var n, tail := |items[0].payload|, Tail(c, items);
            n <= |tail| && tail[..n] == items[0].payload
  {
    ReadsTail(c, items);
    ItemBytesAre(c, items[0]);
    var n, tail := |items[0].payload|, Tail(c, items);
    assert tail[..|tail|] == tail;
    assert WithLengths(items)[0] == WithLength(items[0]);
  }

  lemma RestIsRead(c: Codec, items: seq<Item>)
    requires c.Lawful() && |items| > 1 && IsText(items[0].payload)
    requires ReadItems(c, Joined(c, items)) == Some(WithLengths(items))
    ensures ReadItems(c, Joined(c, items[1..])) == Some(WithLengths(items[1..]))
  {
    ReadsTail(c, items);
    ItemBytesAre(c, items[0]);
    PayloadThenRest(items[0].payload, Joined(c, items[1..]));
    WithLengthsCons(items);
    ReadsOn(c, Joined(c, items));
    SameRest(Item(WithLength(items[0]).headers, items[0].payload), ReadItems(c, Joined(c, items[1..])).value,
             WithLength(items[0]), WithLengths(items[1..]));
  }

  lemma SameRest(x: Item, xs: seq<Item>, y: Item, ys: seq<Item>)
    requires [x] + xs == [y] + ys
    ensures xs == ys
  {
    assert ([x] + xs)[1..] == xs && ([y] + ys)[1..] == ys;
  }

  lemma {:induction false} OnlyTextIsRead(c: Codec, items: seq<Item>)
    requires c.Lawful() && ValidPayloads(items)
    requires ReadItems(c, Joined(c, items)) == Some(WithLengths(items))
    ensures TextPayloads(items)
  {
    if items != [] {
      FirstPayloadIsCut(c, items);
      if BYTE_ORDER_MARK <= items[0].payload {
        MarkedPayloadIsLost(c, items);
      } else if |items| > 1 {
        RestIsRead(c, items);
        OnlyTextIsRead(c, items[1..]);
      }
    }
  }

  /** Any envelope, with any number of items: a reader recovers it exactly when every payload is UTF-8 without a byte
      order mark in front. */
  lemma RecoveredExactlyWhenText(c: Codec, headers: Headers, items: seq<Item>)
    requires c.Lawful()
    ensures ReadEnvelope(c, Encode(c, headers, items)) == Some(Envelope(headers, WithLengths(items)))
       <==> TextPayloads(items)
  {
    if TextPayloads(items) {
      RoundTrip(c, headers, items);
    } else {
      ReadsEncoded(c, headers, items);
      if ReadItems(c, Joined(c, items)) == Some(WithLengths(items)) {
        JoinedIsText(c, items);
        ReadPayloadsAreValid(c, Joined(c, items));
        assert forall i :: 0 <= i < |items| ==> WithLengths(items)[i].payload == items[i].payload;
        OnlyTextIsRead(c, items);
      }
    }
  }
}
