/** What a reader gets out of an envelope, header by header. */
module EnvelopeContents {
  import opened Sequences
  import opened EnvelopeFormat

  /** An item as read back: the payload, its length, and all the headers the item had. */
  predicate ReadsAs(read: Item, item: Item) {
    && read.payload == item.payload
    && read.headers.Keys == item.headers.Keys + {"length"}
    && read.headers["length"] == Number(|item.payload|)
    && forall key :: key in item.headers && key != "length" ==> read.headers[key] == item.headers[key]
  }

  predicate AllReadAs(read: seq<Item>, items: seq<Item>) {
    |read| == |items| && forall i :: 0 <= i < |items| ==> ReadsAs(read[i], items[i])
  }

  lemma LengthIsAdded(item: Item)
    ensures ReadsAs(WithLength(item), item)
  {
  }

  /** The reader finds the envelope's headers and every item: payload, length, and each of its own headers. */
  lemma EverythingIsRead(c: Codec, headers: Headers, items: seq<Item>)
    requires c.Lawful() && TextPayloads(items)
    ensures var read := ReadEnvelope(c, Encode(c, headers, items));
            read.Some? && read.value.headers == headers && AllReadAs(read.value.items, items)
  {
    RoundTrip(c, headers, items);
    forall i | 0 <= i < |items|
      ensures ReadsAs(WithLengths(items)[i], items[i])
    {
      LengthIsAdded(items[i]);
    }
  }
}
