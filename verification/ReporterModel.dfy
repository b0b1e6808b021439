/** SentryPostbox and the part of ReportInterface that hands envelopes over, driven by all that can reach them. */
module ReporterModel {
  import opened Sequences
  import opened EnvelopeFormat

  /** m_envelope's fields, the postbox flags and m_sendWhenReady. */
  datatype Reporter = Reporter(
    headers: Headers,
    items: seq<Item>,
    hasEvent: bool,
    dsnSet: bool,
    hasDelivered: bool,
    sendWhenReady: bool)

  /** A file the postbox has written; guarded if it went through maybePickUpPostbox. */
  datatype Letter = Letter(content: seq<byte>, guarded: bool)

  datatype Desk = Desk(r: Reporter, outbox: seq<Letter>)

  const DSN := "dsn"
  const EVENT_ID := "event_id"
  const TYPE := "type"

  function NewReporter(eventId: string): Reporter {
    Reporter(map[EVENT_ID := Text(eventId)], [], false, false, false, false)
  }

  function EventItem(payload: seq<byte>): Item {
    Item(map[TYPE := Text("event")], payload)
  }

  function FeedbackItem(payload: seq<byte>): Item {
    Item(map[TYPE := Text("user_report")], payload)
  }

  predicate IsEmpty(r: Reporter) {
    r.items == [] || !r.hasEvent
  }

  predicate IsReadyToDeliver(r: Reporter) {
    r.dsnSet && !IsEmpty(r)
  }

  function DsnLoaded(r: Reporter, dsn: string): Reporter {
    r.(headers := r.headers[DSN := Text(dsn)], dsnSet := true)
  }

  function EventAdded(r: Reporter, payload: seq<byte>): Reporter {
    r.(items := r.items + [EventItem(payload)], hasEvent := true, hasDelivered := false)
  }

  function FeedbackAdded(r: Reporter, payload: seq<byte>): Reporter {
    r.(items := r.items + [FeedbackItem(payload)], hasDelivered := false)
  }

  function Delivered(c: Codec, d: Desk, guarded: bool): Desk {
    Desk(d.r.(hasDelivered := true), d.outbox + [Letter(Encode(c, d.r.headers, d.r.items), guarded)])
  }

  predicate WillPickUp(r: Reporter) {
    r.sendWhenReady && !r.hasDelivered && IsReadyToDeliver(r)
  }

  function PickedUp(c: Codec, d: Desk): Desk {
    if WillPickUp(d.r) then Delivered(c, d, true) else d
  }

  datatype Event =
    | AddEvent(payload: seq<byte>)
    | AddFeedback(payload: seq<byte>)
    | SetSendWhenReady(send: bool)
    | LoadDsn(dsn: string)
    | DeliverAnyway

  /** prepareEventPayload, prepareCrashComment and createCrashMessage end in maybePickUpPostbox, as does
      setSendWhenReady; two callers of the bug report path deliver without asking. */
  function React(c: Codec, d: Desk, e: Event): Desk {
    match e
    case AddEvent(payload) => PickedUp(c, d.(r := EventAdded(d.r, payload)))
    case AddFeedback(payload) => PickedUp(c, d.(r := FeedbackAdded(d.r, payload)))
    case SetSendWhenReady(send) => PickedUp(c, d.(r := d.r.(sendWhenReady := send)))
    case LoadDsn(dsn) => d.(r := DsnLoaded(d.r, dsn))
    case DeliverAnyway => Delivered(c, d, false)
  }

  function After(c: Codec, d: Desk, trace: seq<Event>): Desk {
    if trace == [] then d else React(c, After(c, d, trace[..|trace| - 1]), trace[|trace| - 1])
  }

  function Contents(outbox: seq<Letter>): (r: seq<seq<byte>>)
    ensures |r| == |outbox| && forall k :: 0 <= k < |outbox| ==> r[k] == outbox[k].content
  {
    seq(|outbox|, k requires 0 <= k < |outbox| => outbox[k].content)
  }

  /** The events take reporter r with these files written to r' with those. */
  predicate Answers(c: Codec, r: Reporter, files: seq<seq<byte>>, es: seq<Event>,
                    r': Reporter, files': seq<seq<byte>>)
  {
    var d := After(c, Desk(r, []), es);
    r' == d.r && files' == files + Contents(d.outbox)
  }
}
