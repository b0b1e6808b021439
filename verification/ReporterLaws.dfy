/** What the reporter promises about the envelopes it hands over. */
module ReporterLaws {
  import opened EnvelopeFormat
  import opened EnvelopeContents
  import opened PayloadStore
  import opened DeliveryLaws
  import R = ReporterModel

  /** The letter is an envelope with exactly these items. */
  ghost predicate Holds(c: Codec, letter: R.Letter, items: seq<Item>) {
    exists h :: letter.content == Encode(c, h, items)
  }

  /** The letter is an envelope with a DSN, and with an event among its items. */
  ghost predicate Deliverable(c: Codec, letter: R.Letter) {
    exists h: Headers, items: seq<Item> ::
      && letter.content == Encode(c, h, items)
      && R.DSN in h && h[R.DSN].Text? && h[R.DSN].text != ""
      && HasEvent(items)
  }

  predicate HasEvent(items: seq<Item>) {
    exists i :: 0 <= i < |items| && items[i] == R.EventItem(items[i].payload)
  }

  predicate HeadersReady(r: R.Reporter) {
    && (r.dsnSet ==> R.DSN in r.headers && r.headers[R.DSN].Text? && r.headers[R.DSN].text != "")
    && (r.hasEvent ==> HasEvent(r.items))
  }

  ghost predicate Inv(c: Codec, d: R.Desk) {
    && HeadersReady(d.r)
    && (d.r.hasDelivered ==> d.outbox != [] && Holds(c, d.outbox[|d.outbox| - 1], d.r.items))
    && (forall k :: 0 <= k < |d.outbox| && d.outbox[k].guarded ==> Deliverable(c, d.outbox[k]))
  }

  lemma MoreItemsKeepEvent(items: seq<Item>, item: Item)
    ensures HasEvent(items) ==> HasEvent(items + [item])
    ensures item == R.EventItem(item.payload) ==> HasEvent(items + [item])
  {
    if HasEvent(items) {
      var i :| 0 <= i < |items| && items[i] == R.EventItem(items[i].payload);
      assert (items + [item])[i] == items[i];
    }
    assert (items + [item])[|items|] == item;
  }

  lemma DeliveredKeepsInv(c: Codec, d: R.Desk, guarded: bool)
    requires HeadersReady(d.r)
    requires forall k :: 0 <= k < |d.outbox| && d.outbox[k].guarded ==> Deliverable(c, d.outbox[k])
    requires guarded ==> R.IsReadyToDeliver(d.r)
    ensures Inv(c, R.Delivered(c, d, guarded))
  {
    var letter := R.Letter(Encode(c, d.r.headers, d.r.items), guarded);
    assert Holds(c, letter, d.r.items);
    if guarded {
      assert Deliverable(c, letter);
    }
  }

  lemma PickedUpKeepsInv(c: Codec, d: R.Desk)
    requires Inv(c, d)
    ensures Inv(c, R.PickedUp(c, d))
  {
    if R.WillPickUp(d.r) {
      DeliveredKeepsInv(c, d, true);
    }
  }

  lemma ReactKeepsInv(c: Codec, d: R.Desk, e: R.Event)
    requires Inv(c, d) && (e.LoadDsn? ==> e.dsn != "")
    ensures Inv(c, R.React(c, d, e))
  {
    match e
    case AddEvent(payload) =>
      MoreItemsKeepEvent(d.r.items, R.EventItem(payload));
      PickedUpKeepsInv(c, d.(r := R.EventAdded(d.r, payload)));
    case AddFeedback(payload) =>
      MoreItemsKeepEvent(d.r.items, R.FeedbackItem(payload));
      PickedUpKeepsInv(c, d.(r := R.FeedbackAdded(d.r, payload)));
    case SetSendWhenReady(send) => PickedUpKeepsInv(c, d.(r := d.r.(sendWhenReady := send)));
    case LoadDsn(dsn) =>
    case DeliverAnyway => DeliveredKeepsInv(c, d, false);
  }

  /** The address lookup always comes up with some DSN, if only the fallback. */
  predicate RealDsns(trace: seq<R.Event>) {
    forall i :: 0 <= i < |trace| && trace[i].LoadDsn? ==> trace[i].dsn != ""
  }

  lemma {:induction false} AfterKeepsInv(c: Codec, eventId: string, trace: seq<R.Event>)
    requires RealDsns(trace)
    ensures Inv(c, R.After(c, R.Desk(R.NewReporter(eventId), []), trace))
  {
    if trace != [] {
      AfterKeepsInv(c, eventId, trace[..|trace| - 1]);
      ReactKeepsInv(c, R.After(c, R.Desk(R.NewReporter(eventId), []), trace[..|trace| - 1]), trace[|trace| - 1]);
    }
  }

  /** hasDelivered means that a reader of the last envelope finds every item added so far. */
  lemma DeliveredHoldsEverything(c: Codec, eventId: string, trace: seq<R.Event>)
    requires c.Lawful() && RealDsns(trace)
    ensures var d := R.After(c, R.Desk(R.NewReporter(eventId), []), trace);
            d.r.hasDelivered && TextPayloads(d.r.items) ==>
              && d.outbox != []
              && var read := ReadEnvelope(c, d.outbox[|d.outbox| - 1].content);
                 read.Some? && read.value.items == WithLengths(d.r.items) && AllReadAs(read.value.items, d.r.items)
  {
    AfterKeepsInv(c, eventId, trace);
    var d := R.After(c, R.Desk(R.NewReporter(eventId), []), trace);
    if d.r.hasDelivered && TextPayloads(d.r.items) {
      var h :| d.outbox[|d.outbox| - 1].content == Encode(c, h, d.r.items);
      RoundTrip(c, h, d.r.items);
      EverythingIsRead(c, h, d.r.items);
    }
  }

  /** A ready envelope waits for the next hand-over exactly when its DSN has come in late. */
  lemma OnlyLateDsnsWait(c: Codec, d: R.Desk, e: R.Event)
    ensures R.WillPickUp(R.React(c, d, e).r)
       <==> e.LoadDsn? && d.r.sendWhenReady && !d.r.hasDelivered && !R.IsEmpty(d.r)
  {
  }

  /** Conservation from the report interface to the server: an envelope handed over through maybePickUpPostbox is,
      after any history of postmen and replies, still pending, or sent, or was removed as 30 days old. */
  lemma HandedOverIsKept(c: Codec, eventId: string, trace: seq<R.Event>, k: nat, history: seq<Event>, w: World,
                         name: string)
    requires c.Lawful() && RealDsns(trace)
    requires var d := R.After(c, R.Desk(R.NewReporter(eventId), []), trace); k < |d.outbox| && d.outbox[k].guarded
    requires Run(c, EMPTY, history, w) && name in w.written
    requires w.written[name].content == R.After(c, R.Desk(R.NewReporter(eventId), []), trace).outbox[k].content
    ensures ExactlyOne(IsPending(w, name), IsSent(w, name), IsAged(w, name), false) && !IsDiscarded(w, name)
    ensures IsPending(w, name) ==> w.s.pending[name] == w.written[name]
    ensures IsSent(w, name) ==> w.s.sent[name] == w.written[name]
    ensures IsAged(w, name) ==> w.s.now - w.written[name].mtime >= 30 * 86400
  {
    AfterKeepsInv(c, eventId, trace);
    var d := R.After(c, R.Desk(R.NewReporter(eventId), []), trace);
    assert Deliverable(c, d.outbox[k]);
    var h: Headers, items: seq<Item> :|
      d.outbox[k].content == Encode(c, h, items) && R.DSN in h && h[R.DSN].Text? && h[R.DSN].text != "";
    FirstLineIsHeader(c, h, items);
    NothingIsLost(c, history, w, name);
  }
}
