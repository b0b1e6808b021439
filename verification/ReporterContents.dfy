/** What the reporter's envelopes contain and when one is handed over, read off the events alone. */
module ReporterContents {
  import opened Sequences
  import opened Utf8
  import opened EnvelopeFormat
  import opened EnvelopeContents
  import R = ReporterModel

  /** Type and payload of each item added, in order. */
  function Added(trace: seq<R.Event>): seq<(string, seq<byte>)> {
    if trace == [] then []
    else
      var before := Added(trace[..|trace| - 1]);
      match trace[|trace| - 1]
      case AddEvent(payload) => before + [("event", payload)]
      case AddFeedback(payload) => before + [("user_report", payload)]
      case _ => before
  }

  /** The DSN that was loaded last. */
  function LastDsn(trace: seq<R.Event>): Option<string> {
    if trace == [] then None
    else if trace[|trace| - 1].LoadDsn? then Some(trace[|trace| - 1].dsn)
    else LastDsn(trace[..|trace| - 1])
  }

  /** Sending was asked for last, rather than called off. */
  predicate Wanted(trace: seq<R.Event>) {
    if trace == [] then false
    else if trace[|trace| - 1].SetSendWhenReady? then trace[|trace| - 1].send
    else Wanted(trace[..|trace| - 1])
  }

  /** The headers of the envelope: the event's id, and the DSN once it is known. */
  predicate HeadersAre(headers: Headers, eventId: string, dsn: Option<string>) {
    && headers.Keys == {"event_id"} + (if dsn.Some? then {"dsn"} else {})
    && headers["event_id"] == Text(eventId)
    && (dsn.Some? ==> headers["dsn"] == Text(dsn.value))
  }

  predicate ItemsAre(items: seq<Item>, added: seq<(string, seq<byte>)>) {
    |items| == |added|
    && forall k :: 0 <= k < |added| ==> items[k] == Item(map["type" := Text(added[k].0)], added[k].1)
  }

  predicate HasEvent(added: seq<(string, seq<byte>)>) {
    exists k :: 0 <= k < |added| && added[k].0 == "event"
  }

  /** The desk after all these events, before any of them nothing. */
  function DeskAfter(c: Codec, eventId: string, trace: seq<R.Event>): R.Desk {
    R.After(c, R.Desk(R.NewReporter(eventId), []), trace)
  }

  lemma HasEventMore(added: seq<(string, seq<byte>)>, more: (string, seq<byte>))
    ensures HasEvent(added + [more]) <==> HasEvent(added) || more.0 == "event"
  {
    if HasEvent(added) {
      var k :| 0 <= k < |added| && added[k].0 == "event";
      assert (added + [more])[k] == added[k];
    }
    assert (added + [more])[|added|] == more;
  }

  predicate Reflects(r: R.Reporter, eventId: string, added: seq<(string, seq<byte>)>, dsn: Option<string>,
                     wanted: bool)
  {
    && HeadersAre(r.headers, eventId, dsn) && ItemsAre(r.items, added)
    && (r.hasEvent <==> HasEvent(added)) && (r.dsnSet <==> dsn.Some?) && (r.sendWhenReady <==> wanted)
  }

  /** Fields of the reporter after any run. */
  lemma {:induction false} FieldsAre(c: Codec, eventId: string, trace: seq<R.Event>)
    ensures Reflects(DeskAfter(c, eventId, trace).r, eventId, Added(trace), LastDsn(trace), Wanted(trace))
  {
    if trace != [] {
      var front, e := trace[..|trace| - 1], trace[|trace| - 1];
      FieldsAre(c, eventId, front);
      EventReflects(c, DeskAfter(c, eventId, front), eventId, front, e);
      assert front + [e] == trace;
    }
  }

  lemma EventReflects(c: Codec, d: R.Desk, eventId: string, front: seq<R.Event>, e: R.Event)
    requires Reflects(d.r, eventId, Added(front), LastDsn(front), Wanted(front))
    ensures Reflects(R.React(c, d, e).r, eventId, Added(front + [e]), LastDsn(front + [e]), Wanted(front + [e]))
  {
    assert (front + [e])[..|front|] == front;
    match e
    case AddEvent(payload) => HasEventMore(Added(front), ("event", payload));
    case AddFeedback(payload) => HasEventMore(Added(front), ("user_report", payload));
    case _ =>
  }

  /** Does event e make maybePickUpPostbox hand over an envelope? */
  predicate HandsOver(trace: seq<R.Event>, e: R.Event, delivered: bool) {
    && !e.LoadDsn? && !e.DeliverAnyway?
    && Wanted(trace + [e]) && LastDsn(trace).Some? && HasEvent(Added(trace + [e]))
    && (!delivered || e.AddEvent? || e.AddFeedback?)
  }

  /** An event writes a file exactly when it is an unconditional delivery or hands over: sending wanted, the DSN known,
      an event among the items, and something not yet delivered. */
  lemma HandOverExactly(c: Codec, eventId: string, trace: seq<R.Event>, e: R.Event)
    ensures var d, u := DeskAfter(c, eventId, trace), DeskAfter(c, eventId, trace + [e]);
            var hands := HandsOver(trace, e, d.r.hasDelivered);
            && d.outbox <= u.outbox
            && |u.outbox| == |d.outbox| + (if hands || e.DeliverAnyway? then 1 else 0)
            && (hands || e.DeliverAnyway? ==>
                  u.outbox[|d.outbox|] == R.Letter(Encode(c, u.r.headers, u.r.items), hands))
            && u.r.hasDelivered == (hands || e.DeliverAnyway? || (d.r.hasDelivered && !e.AddEvent? && !e.AddFeedback?))
  {
    assert (trace + [e])[..|trace|] == trace;
    FieldsAre(c, eventId, trace);
    FieldsAre(c, eventId, trace + [e]);
  }

  /** An item as it stands in a file. */
  predicate FiledAs(read: Item, added: (string, seq<byte>)) {
    && read.payload == added.1
    && read.headers == map["type" := Text(added.0), "length" := Number(|added.1|)]
  }

  predicate AllText(added: seq<(string, seq<byte>)>) {
    forall k :: 0 <= k < |added| ==> IsText(added[k].1)
  }

  lemma FiledIs(read: Item, item: Item, added: (string, seq<byte>))
    requires ReadsAs(read, item) && item == Item(map["type" := Text(added.0)], added.1)
    ensures FiledAs(read, added)
  {
    assert read.headers.Keys == {"type", "length"};
  }

  /** What a reader finds in the file of that moment: the event's id, the DSN, and every item added so far, in order,
      with its type, its length and its payload. */
  lemma FileContains(c: Codec, eventId: string, trace: seq<R.Event>)
    requires c.Lawful() && AllText(Added(trace))
    ensures var r := DeskAfter(c, eventId, trace).r;
            var read := ReadEnvelope(c, Encode(c, r.headers, r.items));
            && read.Some? && HeadersAre(read.value.headers, eventId, LastDsn(trace))
            && |read.value.items| == |Added(trace)|
            && forall k :: 0 <= k < |Added(trace)| ==> FiledAs(read.value.items[k], Added(trace)[k])
  {
    FieldsAre(c, eventId, trace);
    var r := DeskAfter(c, eventId, trace).r;
    EverythingIsRead(c, r.headers, r.items);
    var read := ReadEnvelope(c, Encode(c, r.headers, r.items)).value;
    forall k | 0 <= k < |Added(trace)|
      ensures FiledAs(read.items[k], Added(trace)[k])
    {
      FiledIs(read.items[k], r.items[k], Added(trace)[k]);
    }
  }
}
