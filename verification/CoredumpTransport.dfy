/** The coredump processor's segmented write and the launcher's read, over a socket that keeps record boundaries. */
module CoredumpTransport {
  import opened Sequences

  const DATAGRAM_SIZE := 8192

  /** What one QLocalSocket::write returns, and whether the socket is still connected then. */
  datatype Outcome = Outcome(written: int, connected: bool)

  function Min(a: int, b: int): int {
    if a < b then a else b
  }

  predicate Takes(o: Outcome) {
    o.written > 0
  }

  predicate GivesUp(o: Outcome) {
    o.written <= 0 && !o.connected
  }

  /** Record k is what write takes[k] has taken of the bytes left then, 8192 at most. */
  predicate Follows(records: seq<seq<byte>>, takes: seq<nat>, outcomes: seq<Outcome>, n: nat, total: nat)
    requires n <= |outcomes|
  {
    && |takes| == |records| && Increasing(takes)
    && forall k :: 0 <= k < |records| ==>
         && takes[k] < n && Takes(outcomes[takes[k]])
         && |records[k]| == Min(outcomes[takes[k]].written, Min(8192, total - |Concat(records[..k])|))
  }

  lemma FollowsOneMore(records: seq<seq<byte>>, takes: seq<nat>, outcomes: seq<Outcome>, i: nat, data: seq<byte>,
                       total: nat)
    requires i < |outcomes| && Takes(outcomes[i]) && data != [] && Follows(records, takes, outcomes, i, total)
    requires |Concat(records)| + |data| == total
    ensures var written := Min(outcomes[i].written, Min(8192, |data|));
            Follows(records + [data[..written]], takes + [i], outcomes, i + 1, total)
  {
    var written := Min(outcomes[i].written, Min(8192, |data|));
    var more := records + [data[..written]];
    assert more[..|records|] == records;
    forall k | 0 <= k < |records|
      ensures more[..k] == records[..k]
    {
    }
  }

  /** What has been written after the first i outcomes, and what is left. */
  predicate Sending(payload: seq<byte>, outcomes: seq<Outcome>, i: nat, records: seq<seq<byte>>, data: seq<byte>,
                    takes: seq<nat>)
  {
    && i <= |outcomes| && Concat(records) + data == payload
    && (forall k :: 0 <= k < |records| ==> 0 < |records[k]| <= 8192)
    && (forall k :: 0 <= k < i ==> !GivesUp(outcomes[k]))
    && |records| == Writes(outcomes[..i])
    && Follows(records, takes, outcomes, i, |payload|)
  }

  lemma SendingTakes(payload: seq<byte>, outcomes: seq<Outcome>, i: nat, records: seq<seq<byte>>, data: seq<byte>,
                     takes: seq<nat>)
    requires Sending(payload, outcomes, i, records, data, takes)
    requires i < |outcomes| && Takes(outcomes[i]) && data != []
    ensures var written := Min(outcomes[i].written, Min(8192, |data|));
            Sending(payload, outcomes, i + 1, records + [data[..written]], data[written..], takes + [i])
  {
    OneMoreRecord(records, data, Min(outcomes[i].written, Min(8192, |data|)));
    FollowsOneMore(records, takes, outcomes, i, data, |payload|);
    assert outcomes[..i + 1][..i] == outcomes[..i];
  }

  lemma SendingWaits(payload: seq<byte>, outcomes: seq<Outcome>, i: nat, records: seq<seq<byte>>, data: seq<byte>,
                     takes: seq<nat>)
    requires Sending(payload, outcomes, i, records, data, takes)
    requires i < |outcomes| && !Takes(outcomes[i]) && !GivesUp(outcomes[i])
    ensures Sending(payload, outcomes, i + 1, records, data, takes)
  {
    assert outcomes[..i + 1][..i] == outcomes[..i];
  }

  lemma FollowsAll(records: seq<seq<byte>>, takes: seq<nat>, outcomes: seq<Outcome>, n: nat, total: nat)
    requires n <= |outcomes| && Follows(records, takes, outcomes, n, total)
    ensures Follows(records, takes, outcomes, |outcomes|, total)
  {
  }

  /** The send loop, for as long as the given outcomes last. */
  method Send(payload: seq<byte>, outcomes: seq<Outcome>)
    returns (records: seq<seq<byte>>, data: seq<byte>, aborted: bool, ghost takes: seq<nat>)
    ensures Concat(records) + data == payload
    ensures forall k :: 0 <= k < |records| ==> 0 < |records[k]| <= 8192
    ensures Follows(records, takes, outcomes, |outcomes|, |payload|)
    ensures aborted ==> !NoneGivesUp(outcomes) && data != []
    ensures !aborted && data != [] ==> NoneGivesUp(outcomes) && |records| == Writes(outcomes)
  {
    records, data, aborted, takes := [], payload, false, [];
    var i := 0;
    while data != [] && i < |outcomes|
      invariant i <= |outcomes| && Sending(payload, outcomes, i, records, data, takes)
    {
      var offered := if |data| < DATAGRAM_SIZE then |data| else DATAGRAM_SIZE;
      // a write takes no more than it is offered
      var written := if outcomes[i].written > offered then offered else outcomes[i].written;
      if written > 0 {
        SendingTakes(payload, outcomes, i, records, data, takes);
        takes := takes + [i];
        records := records + [data[..written]];
        data := data[written..];
      } else if !outcomes[i].connected {
        FollowsAll(records, takes, outcomes, i, |payload|);
        assert GivesUp(outcomes[i]);
        aborted := true;
        return;
      } else {
        SendingWaits(payload, outcomes, i, records, data, takes);
      }
      i := i + 1;
    }
    FollowsAll(records, takes, outcomes, i, |payload|);
    assert outcomes[..|outcomes|] == outcomes;
  }

  lemma OneMoreRecord(records: seq<seq<byte>>, data: seq<byte>, n: nat)
    requires n <= |data|
    ensures Concat(records + [data[..n]]) + data[n..] == Concat(records) + data
  {
    ConcatSnoc(records, data[..n]);
    assert data[..n] + data[n..] == data;
    assert Concat(records) + data[..n] + data[n..] == Concat(records) + (data[..n] + data[n..]);
  }

  predicate NoneGivesUp(outcomes: seq<Outcome>) {
    forall i :: 0 <= i < |outcomes| ==> !GivesUp(outcomes[i])
  }

  /** How many of the writes take something. */
  function Writes(outcomes: seq<Outcome>): nat {
    if outcomes == [] then 0
    else Writes(outcomes[..|outcomes| - 1]) + (if Takes(outcomes[|outcomes| - 1]) then 1 else 0)
  }

  /** What the launcher's fixed segment buffer holds of a record: the rest of a longer one would be lost. */
  function Segment(record: seq<byte>): seq<byte> {
    if |record| <= DATAGRAM_SIZE then record else record[..DATAGRAM_SIZE]
  }

  /** The read loop up to the end of the stream. */
  method Receive(records: seq<seq<byte>>) returns (json: seq<byte>)
    ensures json == Concat(Map(Segment, records))
    ensures forall k :: 0 <= k < |records| ==> Map(Segment, records)[k] == records[k][..Min(8192, |records[k]|)]
  {
    json := [];
    for i := 0 to |records|
      invariant json == Concat(Map(Segment, records[..i]))
    {
      var size := if |records[i]| <= DATAGRAM_SIZE then |records[i]| else DATAGRAM_SIZE;
      ConcatSnoc(Map(Segment, records[..i]), Segment(records[i]));
      assert Map(Segment, records[..i + 1]) == Map(Segment, records[..i]) + [Segment(records[i])];
      json := json + records[i][..size];
    }
    assert records[..|records|] == records;
  }

  /** Records that fit arrive whole. */
  lemma SegmentsFit(records: seq<seq<byte>>)
    requires forall k :: 0 <= k < |records| ==> |records[k]| <= DATAGRAM_SIZE
    ensures Map(Segment, records) == records
  {
  }

  predicate AllFit(records: seq<seq<byte>>) {
    forall k :: 0 <= k < |records| ==> |records[k]| <= 8192
  }

  lemma {:induction false} OversizeLosesBytes(records: seq<seq<byte>>)
    ensures |Concat(Map(Segment, records))| <= |Concat(records)|
    ensures !AllFit(records) ==> |Concat(Map(Segment, records))| < |Concat(records)|
  {
    if records != [] {
      var rest := records[1..];
      OversizeLosesBytes(rest);
      assert Map(Segment, records)[1..] == Map(Segment, rest);
      if AllFit(rest) && |records[0]| <= DATAGRAM_SIZE {
        assert forall k :: 0 < k < |records| ==> records[k] == rest[k - 1];
      }
    }
  }

  /** Reassembly is exact exactly when no record is larger than the segment buffer. */
  lemma ExactWhenRecordsFit(records: seq<seq<byte>>)
    ensures Concat(Map(Segment, records)) == Concat(records) <==> AllFit(records)
  {
    if AllFit(records) {
      SegmentsFit(records);
    } else {
      OversizeLosesBytes(records);
    }
  }

  /** Sender and receiver together: whatever the writes took, the launcher has a prefix of the payload, and all of it
      once the sender is through. */
  method Transfer(payload: seq<byte>, outcomes: seq<Outcome>) returns (json: seq<byte>, complete: bool)
    ensures json <= payload
    ensures complete <==> json == payload
    ensures NoneGivesUp(outcomes) && Writes(outcomes) >= |payload| ==> complete
  {
    var records, data, aborted, _ := Send(payload, outcomes);
    SegmentsFit(records);
    json := Receive(records);
    complete := data == [];
    if data == [] {
      assert Concat(records) + data == Concat(records);
    }
    if NoneGivesUp(outcomes) && data != [] {
      RecordsTakeBytes(records);
    }
  }

  lemma {:induction false} RecordsTakeBytes(records: seq<seq<byte>>)
    requires forall k :: 0 <= k < |records| ==> 0 < |records[k]|
    ensures |Concat(records)| >= |records|
  {
    if records != [] {
      RecordsTakeBytes(records[1..]);
    }
  }
}
