/** No envelope is lost, none is thrown away for a missing DSN it does not miss, none is sent twice. */
module DeliveryLaws {
  import opened Sequences
  import opened EnvelopeFormat
  import opened PayloadStore

  /** Where a written file can be. */
  predicate IsPending(w: World, name: string) { name in w.s.pending }
  predicate IsSent(w: World, name: string) { name in w.s.sent }
  predicate IsAged(w: World, name: string) { name in w.aged }
  predicate IsDiscarded(w: World, name: string) { name in w.discarded }

  predicate ExactlyOne(a: bool, b: bool, c: bool, d: bool) {
    (a || b || c || d) && !(a && b) && !(a && c) && !(a && d) && !(b && c) && !(b && d) && !(c && d)
  }

  /** The record of one name is right. */
  predicate Accounted(c: Codec, w: World, name: string) {
    && (name in w.written <==>
          ExactlyOne(IsPending(w, name), IsSent(w, name), IsAged(w, name), IsDiscarded(w, name)))
    && (name !in w.written ==>
          !IsPending(w, name) && !IsSent(w, name) && !IsAged(w, name) && !IsDiscarded(w, name))
    && (name in w.written ==>
          && (name in w.s.pending ==> w.s.pending[name] == w.written[name])
          && (name in w.s.sent ==> w.s.sent[name] == w.written[name])
          && (name in w.aged ==> w.s.now - w.written[name].mtime >= 30 * 86400)
          && (name in w.discarded ==> DsnOf(c, w.written[name].content) == ""))
    && (name in w.s.inFlight ==> name in w.s.pending)
  }

  ghost predicate Inv(c: Codec, w: World) {
    forall name :: Accounted(c, w, name)
  }

  lemma ReactKeepsName(c: Codec, w: World, e: Event, name: string)
    requires Possible(w, e) && Accounted(c, w, name)
    ensures Accounted(c, React(c, w, e), name)
  {
  }

  lemma ReactKeepsInv(c: Codec, w: World, e: Event)
    requires Possible(w, e) && Inv(c, w)
    ensures Inv(c, React(c, w, e))
  {
    forall name
      ensures Accounted(c, React(c, w, e), name)
    {
      assert Accounted(c, w, name);
      ReactKeepsName(c, w, e, name);
    }
  }

  lemma {:induction false} RunKeepsInv(c: Codec, w: World, trace: seq<Event>, v: World)
    requires Inv(c, w) && Run(c, w, trace, v)
    ensures Inv(c, v)
    decreases |trace|
  {
    if trace != [] {
      ReactKeepsInv(c, w, trace[0]);
      RunKeepsInv(c, React(c, w, trace[0]), trace[1..], v);
    }
  }

  lemma ReactKeepsWritten(c: Codec, w: World, e: Event, name: string)
    requires Possible(w, e) && name in w.written
    ensures name in React(c, w, e).written && React(c, w, e).written[name] == w.written[name]
  {
  }

  lemma {:induction false} WrittenStays(c: Codec, w: World, trace: seq<Event>, v: World, name: string)
    requires Run(c, w, trace, v) && name in w.written
    ensures name in v.written && v.written[name] == w.written[name]
    decreases |trace|
  {
    if trace != [] {
      ReactKeepsWritten(c, w, trace[0], name);
      WrittenStays(c, React(c, w, trace[0]), trace[1..], v, name);
    }
  }

  /** Main conservation result: after any run, an envelope with a DSN is, unchanged, in exactly one of the pending and
      sent directories, or was removed because it had become 30 days old. */
  lemma NothingIsLost(c: Codec, trace: seq<Event>, w: World, name: string)
    requires Run(c, EMPTY, trace, w)
    requires name in w.written && DsnOf(c, w.written[name].content) != ""
    ensures ExactlyOne(IsPending(w, name), IsSent(w, name), IsAged(w, name), false)
    ensures !IsDiscarded(w, name)
    ensures IsPending(w, name) ==> w.s.pending[name] == w.written[name]
    ensures IsSent(w, name) ==> w.s.sent[name] == w.written[name]
    ensures IsAged(w, name) ==> w.s.now - w.written[name].mtime >= 30 * 86400
  {
    assert Inv(c, EMPTY);
    RunKeepsInv(c, EMPTY, trace, w);
    assert Accounted(c, w, name);
  }

  /** From the moment it is written on: however the history goes on, an envelope with a DSN is pending or sent with the
      content and the time of that write, or it was removed a month later or more. */
  lemma WrittenIsKept(c: Codec, before: seq<Event>, u: World, name: string, content: seq<byte>, after: seq<Event>,
                      w: World)
    requires Run(c, EMPTY, before, u) && Possible(u, Writes(name, content)) && DsnOf(c, content) != ""
    requires Run(c, React(c, u, Writes(name, content)), after, w)
    ensures ExactlyOne(IsPending(w, name), IsSent(w, name), IsAged(w, name), false)
    ensures IsPending(w, name) ==> w.s.pending[name] == File(content, u.s.now)
    ensures IsSent(w, name) ==> w.s.sent[name] == File(content, u.s.now)
    ensures IsAged(w, name) ==> w.s.now - u.s.now >= 30 * 86400
  {
    assert Inv(c, EMPTY);
    RunKeepsInv(c, EMPTY, before, u);
    ReactKeepsInv(c, u, Writes(name, content));
    RunKeepsInv(c, React(c, u, Writes(name, content)), after, w);
    WrittenStays(c, React(c, u, Writes(name, content)), after, w, name);
    assert Accounted(c, w, name);
  }

  lemma SentStaysOnce(c: Codec, w: World, e: Event, name: string)
    requires Possible(w, e) && Inv(c, w) && name in w.s.sent
    ensures e != Posts(name)
    ensures name in React(c, w, e).s.sent && React(c, w, e).s.sent[name] == w.s.sent[name]
  {
    assert Accounted(c, w, name);
  }

  /** Once sent, an envelope stays as it was sent and is never posted again. */
  lemma {:induction false} SentIsFinal(c: Codec, w: World, trace: seq<Event>, v: World, name: string)
    requires Inv(c, w) && Run(c, w, trace, v) && name in w.s.sent
    ensures Posts(name) !in trace
    ensures name in v.s.sent && v.s.sent[name] == w.s.sent[name]
    decreases |trace|
  {
    if trace != [] {
      SentStaysOnce(c, w, trace[0], name);
      ReactKeepsInv(c, w, trace[0]);
      SentIsFinal(c, React(c, w, trace[0]), trace[1..], v, name);
    }
  }

  /** The DSN a postman finds in an envelope is the one in its headers. */
  lemma DsnIsRead(c: Codec, headers: Headers, items: seq<Item>)
    requires c.Lawful()
    ensures DsnOf(c, Encode(c, headers, items))
         == if "dsn" in headers && headers["dsn"].Text? then headers["dsn"].text else ""
  {
    FirstLineIsHeader(c, headers, items);
  }

  // ---- What can still be sent ----

  /** Neither on its way nor to be sent off by any postman to come. */
  predicate Unsendable(c: Codec, w: World, name: string) {
    && name in w.written && name !in w.s.sent && name !in w.s.inFlight
    && (name in w.s.pending ==> TooOld(w.s, w.s.pending[name]) || DsnOf(c, w.s.pending[name].content) == "")
  }

  lemma ReactKeepsUnsendable(c: Codec, w: World, e: Event, name: string)
    requires Possible(w, e) && Unsendable(c, w, name)
    ensures Unsendable(c, React(c, w, e), name)
  {
  }

  lemma {:induction false} RunKeepsUnsendable(c: Codec, w: World, trace: seq<Event>, v: World, name: string)
    requires Run(c, w, trace, v) && Unsendable(c, w, name)
    ensures Unsendable(c, v, name)
    decreases |trace|
  {
    if trace != [] {
      ReactKeepsUnsendable(c, w, trace[0], name);
      RunKeepsUnsendable(c, React(c, w, trace[0]), trace[1..], v, name);
    }
  }

  lemma ReplySends(c: Codec, w: World, name: string) returns (v: World)
    requires name in w.s.pending && name in w.s.inFlight
    ensures Run(c, w, [Replies(name, true)], v) && IsSent(v, name)
  {
    v := React(c, w, Replies(name, true));
    assert [Replies(name, true)][1..] == [];
  }

  lemma PostSendsOff(c: Codec, w: World, name: string)
    requires name in w.s.pending && name !in w.s.inFlight
    requires !TooOld(w.s, w.s.pending[name]) && DsnOf(c, w.s.pending[name].content) != ""
    ensures var u := React(c, w, Posts(name)); name in u.s.pending && name in u.s.inFlight
  {
  }

  /** Some continuation of the history has the file sent. */
  ghost predicate CanBeSent(c: Codec, w: World, name: string) {
    exists trace, v :: Run(c, w, trace, v) && IsSent(v, name)
  }

  /** A pending file can still be sent if and only if it is in flight, or young enough and with a DSN. */
  lemma PendingCanBeSent(c: Codec, w: World, name: string)
    requires Inv(c, w) && name in w.s.pending
    ensures CanBeSent(c, w, name)
       <==> || name in w.s.inFlight
            || (w.s.now - w.s.pending[name].mtime < 30 * 86400 && DsnOf(c, w.s.pending[name].content) != "")
  {
    assert Accounted(c, w, name);
    if name in w.s.inFlight {
      var v := ReplySends(c, w, name);
    } else if !TooOld(w.s, w.s.pending[name]) && DsnOf(c, w.s.pending[name].content) != "" {
      PostSendsOff(c, w, name);
      var v := ReplySends(c, React(c, w, Posts(name)), name);
      var trace := [Posts(name), Replies(name, true)];
      assert trace[1..] == [Replies(name, true)];
      assert Run(c, w, trace, v);
    } else {
      forall trace, v | Run(c, w, trace, v)
        ensures !IsSent(v, name)
      {
        RunKeepsUnsendable(c, w, trace, v, name);
      }
    }
  }

  lemma {:induction false} RunSnoc(c: Codec, w: World, trace: seq<Event>, v: World, e: Event)
    requires Run(c, w, trace, v) && Possible(v, e)
    ensures Run(c, w, trace + [e], React(c, v, e))
    decreases |trace|
  {
    if trace == [] {
      assert [e][1..] == [];
      assert trace + [e] == [e];
    } else {
      assert (trace + [e])[1..] == trace[1..] + [e];
      RunSnoc(c, React(c, w, trace[0]), trace[1..], v, e);
    }
  }

  function PostsOf(names: seq<string>): seq<Event> {
    if names == [] then [] else PostsOf(names[..|names| - 1]) + [Posts(names[|names| - 1])]
  }

  /** A directory listing taken while no reply is outstanding. */
  predicate IsListing(s: Store, names: seq<string>) {
    && (forall i :: 0 <= i < |names| ==> names[i] in s.pending && names[i] !in s.inFlight)
    && (forall i, j :: 0 <= i < j < |names| ==> names[i] != names[j])
  }

  /** A postman's pass over a listing is a run of posts, one per file. */
  lemma {:induction false} PassIsRun(c: Codec, w: World, names: seq<string>) returns (v: World)
    requires IsListing(w.s, names)
    ensures Run(c, w, PostsOf(names), v) && v.s == PostedAll(c, w.s, names)
    ensures forall name :: name !in names ==>
              (name in v.s.pending <==> name in w.s.pending) && (name in v.s.inFlight <==> name in w.s.inFlight)
  {
    if names == [] {
      v := w;
    } else {
      var front, last := names[..|names| - 1], names[|names| - 1];
      var u := PassIsRun(c, w, front);
      assert last !in front;
      assert names == front + [last];
      RunSnoc(c, w, PostsOf(front), u, Posts(last));
      v := React(c, u, Posts(last));
    }
  }
}
