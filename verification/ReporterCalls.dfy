/** Calls of the report interface, each answered on its own, add up to one run. */
module ReporterCalls {
  import opened Sequences
  import opened EnvelopeFormat
  import opened EnvelopeContents
  import opened ReporterModel
  import opened ReporterContents
  import ReporterLaws

  /** What one event does to the postbox, and the files it adds: the desk's outbox only grows. */
  lemma ReactAppends(c: Codec, d: Desk, e: Event)
    ensures var from := React(c, Desk(d.r, []), e);
            React(c, d, e) == Desk(from.r, d.outbox + from.outbox)
  {
    assert d.outbox + [] == d.outbox;
  }

  lemma {:induction false} AfterAppends(c: Codec, d: Desk, es: seq<Event>)
    ensures var from := After(c, Desk(d.r, []), es);
            After(c, d, es) == Desk(from.r, d.outbox + from.outbox)
    decreases |es|
  {
    if es == [] {
      assert d.outbox + [] == d.outbox;
    } else {
      var front, e := es[..|es| - 1], es[|es| - 1];
      AfterAppends(c, d, front);
      var from := After(c, Desk(d.r, []), front);
      ReactAppends(c, from, e);
      ReactAppends(c, Desk(from.r, d.outbox + from.outbox), e);
      Associate(d.outbox, from.outbox, React(c, Desk(from.r, []), e).outbox);
    }
  }

  lemma {:induction false} AfterAppend(c: Codec, d: Desk, es: seq<Event>, more: seq<Event>)
    ensures After(c, d, es + more) == After(c, After(c, d, es), more)
    decreases |more|
  {
    if more == [] {
      assert es + more == es;
    } else {
      AfterAppend(c, d, es, more[..|more| - 1]);
      assert (es + more)[..|es + more| - 1] == es + more[..|more| - 1];
    }
  }

  lemma ContentsAppend(xs: seq<Letter>, ys: seq<Letter>)
    ensures Contents(xs + ys) == Contents(xs) + Contents(ys)
  {
  }

  /** Two answers in a row answer all the events. */
  lemma AnswersInTurn(c: Codec, r: Reporter, files: seq<seq<byte>>, es: seq<Event>,
                      r': Reporter, files': seq<seq<byte>>, more: seq<Event>, r'': Reporter, files'': seq<seq<byte>>)
    requires Answers(c, r, files, es, r', files') && Answers(c, r', files', more, r'', files'')
    ensures Answers(c, r, files, es + more, r'', files'')
  {
    var d := After(c, Desk(r, []), es);
    var next := After(c, Desk(d.r, []), more);
    AfterAppend(c, Desk(r, []), es, more);
    AfterAppends(c, d, more);
    ContentsAppend(d.outbox, next.outbox);
    Associate(files, Contents(d.outbox), Contents(next.outbox));
  }

  lemma OneEvent(c: Codec, d: Desk, e: Event)
    ensures After(c, d, [e]) == React(c, d, e)
  {
    assert [e][..0] == [];
  }

  /** deliver() called without asking. */
  lemma DeliverAnswers(c: Codec, r: Reporter, files: seq<seq<byte>>)
    ensures Answers(c, r, files, [DeliverAnyway], r.(hasDelivered := true), files + [Encode(c, r.headers, r.items)])
  {
    OneEvent(c, Desk(r, []), DeliverAnyway);
    assert Contents([] + [Letter(Encode(c, r.headers, r.items), false)]) == [Encode(c, r.headers, r.items)];
  }

  /** onDSNsLoaded touches no file. */
  lemma LoadDsnAnswers(c: Codec, r: Reporter, files: seq<seq<byte>>, dsn: string)
    ensures Answers(c, r, files, [LoadDsn(dsn)], DsnLoaded(r, dsn), files)
  {
    OneEvent(c, Desk(r, []), LoadDsn(dsn));
    assert files + Contents([]) == files;
  }

  /** One method call: the events it stands for, and the state it left. */
  datatype Call = Call(events: seq<Event>, r: Reporter, files: seq<seq<byte>>)

  /** Where the last of the calls has left off. */
  function Left(start: Reporter, calls: seq<Call>): Call {
    if calls == [] then Call([], start, []) else calls[|calls| - 1]
  }

  /** Each call keeps its contract, from where the one before has left off. */
  predicate Called(c: Codec, start: Reporter, calls: seq<Call>) {
    if calls == [] then true
    else
      var front, last := calls[..|calls| - 1], calls[|calls| - 1];
      && Called(c, start, front)
      && Answers(c, Left(start, front).r, Left(start, front).files, last.events, last.r, last.files)
  }

  function AllEvents(calls: seq<Call>): seq<Event> {
    if calls == [] then [] else AllEvents(calls[..|calls| - 1]) + calls[|calls| - 1].events
  }

  lemma {:induction false} CallsAnswer(c: Codec, start: Reporter, calls: seq<Call>)
    requires Called(c, start, calls)
    ensures Answers(c, start, [], AllEvents(calls), Left(start, calls).r, Left(start, calls).files)
  {
    if calls == [] {
      assert Contents([]) == [];
    } else {
      var front, last := calls[..|calls| - 1], calls[|calls| - 1];
      CallsAnswer(c, start, front);
      AnswersInTurn(c, start, [], AllEvents(front), Left(start, front).r, Left(start, front).files,
                    last.events, last.r, last.files);
    }
  }

  /** However the interface is called from its construction on, reporter and files are those of one run of all the
      events, so what is proved about runs holds of the object. */
  lemma CallsAreRun(c: Codec, eventId: string, calls: seq<Call>)
    requires Called(c, NewReporter(eventId), calls)
    ensures var left, d := Left(NewReporter(eventId), calls),
                           After(c, Desk(NewReporter(eventId), []), AllEvents(calls));
            left.r == d.r && left.files == Contents(d.outbox)
  {
    CallsAnswer(c, NewReporter(eventId), calls);
  }

  /** So once the object says that it has delivered, a reader of its last file finds every item added so far, in order,
      with its type, its length and its payload. */
  lemma LastFileHoldsEverything(c: Codec, eventId: string, calls: seq<Call>)
    requires c.Lawful() && Called(c, NewReporter(eventId), calls) && ReporterLaws.RealDsns(AllEvents(calls))
    requires AllText(Added(AllEvents(calls)))
    ensures var left, added := Left(NewReporter(eventId), calls), Added(AllEvents(calls));
            left.r.hasDelivered ==>
              && left.files != []
              && var read := ReadEnvelope(c, left.files[|left.files| - 1]);
                 && read.Some? && |read.value.items| == |added|
                 && forall k :: 0 <= k < |added| ==> FiledAs(read.value.items[k], added[k])
  {
    CallsAreRun(c, eventId, calls);
    FieldsAre(c, eventId, AllEvents(calls));
    ReporterLaws.DeliveredHoldsEverything(c, eventId, AllEvents(calls));
    var items, added := DeskAfter(c, eventId, AllEvents(calls)).r.items, Added(AllEvents(calls));
    forall k | 0 <= k < |added|
      ensures FiledAs(WithLengths(items)[k], added[k])
    {
      LengthIsAdded(items[k]);
      FiledIs(WithLengths(items)[k], items[k], added[k]);
    }
  }
}
