/** SentryEnvelope, SentryPostbox, ReportInterface's hand-over and SentryPostman as the objects they are. */
module SentryDelivery {
  import opened Sequences
  import opened EnvelopeFormat
  import opened PayloadStore
  import opened ReporterCalls
  import R = ReporterModel

  class SentryEnvelope {
    var m_headers: Headers
    var m_items: seq<Item>
    var m_hasEvent: bool

    constructor (eventId: string)
      ensures m_headers == R.NewReporter(eventId).headers && m_items == [] && !m_hasEvent
    {
      m_headers := map[R.EVENT_ID := Text(eventId)];
      m_items, m_hasEvent := [], false;
    }

    method AddItem(item: Item)
      modifies this`m_items
      ensures m_items == old(m_items) + [item]
    {
      m_items := m_items + [item];
    }

    method AddEvent(event: Item)
      modifies this`m_items, this`m_hasEvent
      ensures m_items == old(m_items) + [event] && m_hasEvent
    {
      m_hasEvent := true;
      AddItem(event);
    }

    method SetDSN(dsn: string)
      modifies this`m_headers
      ensures m_headers == old(m_headers)[R.DSN := Text(dsn)]
    {
      m_headers := m_headers[R.DSN := Text(dsn)];
    }

    method IsEmpty() returns (empty: bool)
      ensures empty <==> m_items == [] || !m_hasEvent
    {
      empty := m_items == [] || !m_hasEvent;
    }

    method ToEnvelope(c: Codec) returns (bytes: seq<byte>)
      ensures bytes == Encode(c, m_headers, m_items)
    {
      var header := c.recode(c.toJson(m_headers));
      var payloads: seq<seq<byte>> := [];
      for i := 0 to |m_items|
        invariant |payloads| == i && forall k :: 0 <= k < i ==> payloads[k] == ItemBytes(c, m_items[k])
      {
        payloads := payloads + [ItemBytes(c, m_items[i])];
      }
      JoinLinesIsJoined(c, m_items, payloads);
      bytes := header + [NEWLINE] + c.recode(JoinLines(payloads));
    }
  }

  /** QByteArrayList::join with a newline. */
  function JoinLines(parts: seq<seq<byte>>): seq<byte> {
    if parts == [] then []
    else if |parts| == 1 then parts[0]
    else parts[0] + [NEWLINE] + JoinLines(parts[1..])
  }

  lemma {:induction false} JoinLinesIsJoined(c: Codec, items: seq<Item>, parts: seq<seq<byte>>)
    requires |parts| == |items| && forall k :: 0 <= k < |items| ==> parts[k] == ItemBytes(c, items[k])
    ensures JoinLines(parts) == Joined(c, items)
  {
    if |items| > 1 {
      JoinLinesIsJoined(c, items[1..], parts[1..]);
    }
  }

  class SentryPostbox {
    const m_envelope: SentryEnvelope
    var m_hasDelivered: bool
    var m_dsnSet: bool
    var files: seq<seq<byte>> // written to SentryPaths::payloadPath, oldest first

    constructor (eventId: string)
      ensures fresh(m_envelope) && m_envelope.m_headers == R.NewReporter(eventId).headers
      ensures m_envelope.m_items == [] && !m_envelope.m_hasEvent && !m_hasDelivered && !m_dsnSet && files == []
    {
      m_envelope := new SentryEnvelope(eventId);
      m_hasDelivered, m_dsnSet, files := false, false, [];
    }

    ghost function View(sendWhenReady: bool): R.Reporter
      reads this, m_envelope
    {
      R.Reporter(m_envelope.m_headers, m_envelope.m_items, m_envelope.m_hasEvent, m_dsnSet, m_hasDelivered,
                 sendWhenReady)
    }

    method OnDSNsLoaded(dsn: string)
      modifies this`m_dsnSet, m_envelope
      ensures forall send :: View(send) == R.DsnLoaded(old(View(send)), dsn)
    {
      m_envelope.SetDSN(dsn);
      m_dsnSet := true;
    }

    method AddEventPayload(payload: seq<byte>)
      modifies this`m_hasDelivered, m_envelope
      ensures forall send :: View(send) == R.EventAdded(old(View(send)), payload)
    {
      m_envelope.AddEvent(R.EventItem(payload));
      m_hasDelivered := false;
    }

    method AddUserFeedback(payload: seq<byte>)
      modifies this`m_hasDelivered, m_envelope
      ensures forall send :: View(send) == R.FeedbackAdded(old(View(send)), payload)
    {
      m_envelope.AddItem(R.FeedbackItem(payload));
      m_hasDelivered := false;
    }

    method Deliver(c: Codec)
      modifies this`m_hasDelivered, this`files
      ensures files == old(files) + [Encode(c, m_envelope.m_headers, m_envelope.m_items)] && m_hasDelivered
    {
      var bytes := m_envelope.ToEnvelope(c);
      files := files + [bytes];
      m_hasDelivered := true;
    }

    method IsReadyToDeliver() returns (ready: bool)
      ensures ready == R.IsReadyToDeliver(View(true))
    {
      var empty := m_envelope.IsEmpty();
      ready := m_dsnSet && !empty;
    }
  }

  class ReportInterface {
    const m_sentryPostbox: SentryPostbox
    const codec: Codec
    var m_sendWhenReady: bool

    constructor (eventId: string, codec: Codec)
      ensures fresh(m_sentryPostbox) && fresh(m_sentryPostbox.m_envelope)
      ensures View() == R.NewReporter(eventId) && m_sentryPostbox.files == []
    {
      m_sentryPostbox := new SentryPostbox(eventId);
      this.codec, m_sendWhenReady := codec, false;
    }

    ghost function View(): R.Reporter
      reads this, m_sentryPostbox, m_sentryPostbox.m_envelope
    {
      m_sentryPostbox.View(m_sendWhenReady)
    }

    method MaybePickUpPostbox()
      modifies m_sentryPostbox
      ensures R.WillPickUp(old(View())) ==>
                && View() == old(View()).(hasDelivered := true)
                && m_sentryPostbox.files == old(m_sentryPostbox.files) + [Encode(codec, View().headers, View().items)]
      ensures !R.WillPickUp(old(View())) ==>
                View() == old(View()) && m_sentryPostbox.files == old(m_sentryPostbox.files)
    {
      if m_sendWhenReady && !m_sentryPostbox.m_hasDelivered {
        var ready := m_sentryPostbox.IsReadyToDeliver();
        if ready {
          m_sentryPostbox.Deliver(codec);
        }
      }
    }

    /** The DSNs' loaded signal, as far as the report interface sees it. */
    method OnDSNsLoaded(dsn: string)
      modifies m_sentryPostbox, m_sentryPostbox.m_envelope
      ensures R.Answers(codec, old(View()), old(m_sentryPostbox.files), [R.LoadDsn(dsn)],
                        View(), m_sentryPostbox.files)
    {
      ghost var r, files := View(), m_sentryPostbox.files;
      m_sentryPostbox.OnDSNsLoaded(dsn);
      LoadDsnAnswers(codec, r, files, dsn);
    }

    method SetSendWhenReady(send: bool)
      modifies this, m_sentryPostbox
      ensures R.Answers(codec, old(View()), old(m_sentryPostbox.files), [R.SetSendWhenReady(send)],
                        View(), m_sentryPostbox.files)
    {
      m_sendWhenReady := send;
      MaybePickUpPostbox();
    }

    /** The tail of prepareEventPayload. */
    method AddEventPayload(payload: seq<byte>)
      modifies m_sentryPostbox, m_sentryPostbox.m_envelope
      ensures R.Answers(codec, old(View()), old(m_sentryPostbox.files), [R.AddEvent(payload)],
                        View(), m_sentryPostbox.files)
    {
      m_sentryPostbox.AddEventPayload(payload);
      MaybePickUpPostbox();
    }

    /** prepareCrashComment and createCrashMessage. */
    method AddUserFeedback(payload: seq<byte>)
      modifies m_sentryPostbox, m_sentryPostbox.m_envelope
      ensures R.Answers(codec, old(View()), old(m_sentryPostbox.files), [R.AddFeedback(payload)],
                        View(), m_sentryPostbox.files)
    {
      m_sentryPostbox.AddUserFeedback(payload);
      MaybePickUpPostbox();
    }

    /** prepareCrashComment, and then the delivery without asking; reportSent does the same. */
    method AttachSent(comment: seq<byte>)
      modifies m_sentryPostbox, m_sentryPostbox.m_envelope
      ensures R.Answers(codec, old(View()), old(m_sentryPostbox.files), [R.AddFeedback(comment), R.DeliverAnyway],
                        View(), m_sentryPostbox.files)
    {
      AddUserFeedback(comment);
      ghost var r, files := View(), m_sentryPostbox.files;
      m_sentryPostbox.Deliver(codec);
      DeliverAnswers(codec, r, files);
      AnswersInTurn(codec, old(View()), old(m_sentryPostbox.files), [R.AddFeedback(comment)], r, files,
                    [R.DeliverAnyway], View(), m_sentryPostbox.files);
    }
  }

  class SentryPostman {
    var cache: Store
    const codec: Codec

    constructor (cache: Store, codec: Codec)
      ensures this.cache == cache && this.codec == codec
    {
      this.cache, this.codec := cache, codec;
    }

    method Post(name: string)
      requires name in cache.pending
      modifies this`cache
      ensures cache == Posted(codec, old(cache), name)
    {
      var f := cache.pending[name];
      if cache.now - f.mtime >= MONTH {
        cache := cache.(pending := Remove(cache.pending, name));
        return;
      }
      var dsn := DsnOf(codec, f.content);
      if dsn == "" {
        cache := cache.(pending := Remove(cache.pending, name));
        return;
      }
      cache := cache.(inFlight := cache.inFlight + {name});
    }

    /** One pass over a directory listing. */
    method Run(names: seq<string>)
      modifies this`cache
      ensures cache == PostedAll(codec, old(cache), names)
    {
      for i := 0 to |names|
        invariant cache == PostedAll(codec, old(cache), names[..i])
      {
        assert names[..i + 1][..i] == names[..i];
        if names[i] in cache.pending {
          Post(names[i]);
        }
      }
      assert names[..|names|] == names;
    }

    method OnFinished(name: string, ok: bool)
      modifies this`cache
      ensures cache == Replied(old(cache), name, ok)
    {
      cache := cache.(inFlight := cache.inFlight - {name});
      if !ok {
        return;
      }
      if name in cache.pending {
        var f := cache.pending[name];
        if name in cache.sent {
          cache := cache.(sent := Remove(cache.sent, name));
        }
        cache := cache.(pending := Remove(cache.pending, name), sent := cache.sent[name := f]);
      }
    }
  }
}
