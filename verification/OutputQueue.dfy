/**
  Sending side of the Trilogy protocol: packets are numbered and queued (`ack_mgr_trilogy.c`), sent, and
  retired by cumulative acks (`network_client_trilogy.c`).
 */
module OutputQueue {
  import opened Reassembly
  import opened TrilogyWire

  const RESEND_MILLISECONDS: nat := 250

  /** What happens to the packets scheduled so far, named by their position in the schedule: sent from a fragment
      on, or acknowledged. */
  datatype Event = Sent(index: nat, from: nat) | Acked(ack: nat)

  predicate Asks(w: Wrapper) { w.header != PLAIN }

  /** The number of the last fragment; 0 for a packet that asks for no ack. */
  function Last(w: Wrapper): int { w.ackRequest + (w.fragCount - 1) }

  /** The ack numbers that the packets of a schedule take up. */
  function Numbers(history: seq<Wrapper>): nat {
    if history == [] then 0
    else
      var w := history[|history| - 1];
      Numbers(history[..|history| - 1]) + (if Asks(w) then w.fragCount else 0)
  }

  /** Numbers are given out from 1, without a gap. */
  ghost predicate Numbered(history: seq<Wrapper>) {
    forall i :: 0 <= i < |history| ==>
      Scheduled(history[i]) && history[i].ackRequest == if Asks(history[i]) then 1 + Numbers(history[..i]) else 0
  }

  lemma {:induction false} NumbersGrow(history: seq<Wrapper>, i: nat, j: nat)
    requires i <= j <= |history|
    ensures Numbers(history[..i]) <= Numbers(history[..j])
    decreases j
  {
    if i < j {
      NumbersGrow(history, i, j - 1);
      assert history[..j][..j - 1] == history[..j - 1];
    }
  }

  /** Later packets have later numbers, and the next one to ask takes up where the one before ends. */
  lemma NumbersFollow(history: seq<Wrapper>, i: nat, j: nat)
    requires Numbered(history) && i < j < |history| && Asks(history[i]) && Asks(history[j])
    ensures Last(history[i]) < history[j].ackRequest
    ensures (forall k :: i < k < j ==> !Asks(history[k])) ==> history[j].ackRequest == Last(history[i]) + 1
  {
    assert history[..i + 1][..i] == history[..i];
    NumbersGrow(history, i + 1, j);
    if forall k :: i < k < j ==> !Asks(history[k]) { NumbersStay(history, i + 1, j); }
  }

  lemma {:induction false} NumbersStay(history: seq<Wrapper>, i: nat, j: nat)
    requires i <= j <= |history| && forall k :: i <= k < j ==> !Asks(history[k])
    ensures Numbers(history[..i]) == Numbers(history[..j])
    decreases j
  {
    if i < j {
      NumbersStay(history, i, j - 1);
      assert history[..j][..j - 1] == history[..j - 1];
    }
  }

  ghost predicate WasSent(log: seq<Event>, i: nat) { Sent(i, 0) in log }

  /** The whole packet was sent and, after that, an ack came that covers its last fragment. */
  ghost predicate Covered(log: seq<Event>, i: nat, last: int) {
    exists s, t :: 0 <= s < t < |log| && log[s] == Sent(i, 0) && log[t].Acked? && log[t].ack >= last
  }

  lemma CoveredStays(log: seq<Event>, more: seq<Event>, i: nat, last: int)
    requires Covered(log, i, last)
    ensures Covered(log + more, i, last)
  {
    var s, t :| 0 <= s < t < |log| && log[s] == Sent(i, 0) && log[t].Acked? && log[t].ack >= last;
    assert (log + more)[s] == log[s] && (log + more)[t] == log[t];
  }

  /** The queue is the end of the schedule. */
  ghost predicate IsSuffix(queue: seq<Wrapper>, history: seq<Wrapper>) {
    && |queue| <= |history|
    && forall k :: 0 <= k < |queue| ==> queue[k] == history[|history| - |queue| + k]
  }

  /** What sending and retiring keep: the waiting packets before `sent` have been sent, and every packet that is
      gone was sent and then acknowledged. */
  ghost predicate Tracked(queue: seq<Wrapper>, sent: nat, history: seq<Wrapper>, log: seq<Event>) {
    && IsSuffix(queue, history) && sent <= |queue|
    && (forall i :: |history| - |queue| <= i < |history| - |queue| + sent ==> WasSent(log, i))
    && (forall i :: 0 <= i < |history| - |queue| ==> Covered(log, i, Last(history[i])))
  }

  // ----- Re-sending

  /** The fragment from which a packet is sent again: the first whose number the last ack leaves in the past. */
  function Resume(received: nat, ack: nat, index: nat, count: nat): nat
    decreases count - index
  {
    if index < count && !AckCompare(received, ack).Past? then Resume(received, ack + 1, index + 1, count) else index
  }

  /** Around the last ack, these are exactly the fragments that it does not cover. */
  lemma {:induction false} ResumesBehindAck(received: nat, ack: nat, index: nat, count: nat)
    requires index <= count && received < ack + 1024 && ack + (count - index) <= received + 1024
    ensures Resume(received, ack, index, count) == if received < ack then index else if received - ack + 1 < count - index then index + (received - ack + 1) else count
    decreases count - index
  {
    if index < count && received >= ack { ResumesBehindAck(received, ack + 1, index + 1, count); }
  }

  /** Where the sending loop starts with a queued packet; the number of its fragments if it sends none. */
  function FirstToSend(w: Wrapper, wasSent: bool, stamp: nat, time: nat, received: nat): nat {
    if !wasSent then 0
    else if (time - stamp) % 0x1_0000_0000_0000_0000 < RESEND_MILLISECONDS then w.fragCount
    else if w.fragCount > 1 then Resume(received, w.ackRequest, 0, w.fragCount)
    else 0
  }

  /** The last ack leaves the number in the past: it is less than 1024 below the number, or that far above it. */
  predicate Uncovered(received: nat, number: nat) { received < number <= received + 1024 || number + 1024 <= received }

  lemma UncoveredIsPast(received: nat, number: nat)
    ensures AckCompare(received, number).Past? <==> Uncovered(received, number)
  {
  }

  /** Re-sending resumes at the first fragment that the last ack does not cover. */
  lemma {:induction false} ResumesAtFirst(received: nat, ack: nat, index: nat, count: nat)
    requires index <= count
    ensures var r := Resume(received, ack, index, count);
            && index <= r <= count && (r < count ==> Uncovered(received, ack + (r - index)))
            && forall n :: ack <= n < ack + (r - index) ==> !Uncovered(received, n)
    decreases count - index
  {
    UncoveredIsPast(received, ack);
    hide AckCompare, Uncovered;
    if index < count && !Uncovered(received, ack) {
      ResumesAtFirst(received, ack + 1, index + 1, count);
    }
  }

  /** Where the sending loop starts, in plain terms. */
  lemma StartMeans(w: Wrapper, wasSent: bool, stamp: nat, time: nat, received: nat)
    ensures var from := FirstToSend(w, wasSent, stamp, time, received);
            && (!wasSent ==> from == 0)
            && (wasSent && 0 <= time - stamp < 250 ==> from == w.fragCount)
            && (wasSent && Due(stamp, time) && w.fragCount == 1 ==> from == 0)
            && (wasSent && Due(stamp, time) && w.fragCount > 1 ==> FirstUncovered(received, w, from))
  {
    ResumesAtFirst(received, w.ackRequest, 0, w.fragCount);
    hide Resume, Uncovered;
    DueMeans(stamp, time);
  }

  /** At least 250 milliseconds have passed on a clock of 64 bits that may run over. */
  predicate Due(stamp: nat, time: nat) { 250 <= time - stamp < 0x1_0000_0000_0000_0000 || 0 < stamp - time <= 0x1_0000_0000_0000_0000 - 250 }

  lemma DueMeans(stamp: nat, time: nat)
    ensures 0 <= time - stamp < 250 ==> (time - stamp) % 0x1_0000_0000_0000_0000 < 250
    ensures Due(stamp, time) ==> (time - stamp) % 0x1_0000_0000_0000_0000 >= 250
  {
  }

  /** The first fragment of the packet that the last ack does not cover, or the number of its fragments if it
      covers all. */
  ghost predicate FirstUncovered(received: nat, w: Wrapper, from: nat) {
    && from <= w.fragCount && (from < w.fragCount ==> Uncovered(received, w.ackRequest + from))
    && forall n :: w.ackRequest <= n < w.ackRequest + from ==> !Uncovered(received, n)
  }

  /** What one turn of the sending loop does for the first i packets of the queue. */
  ghost function SendEvents(queue: seq<Wrapper>, stamps: seq<nat>, sent: nat, time: nat, received: nat, retired: nat, i: nat): seq<Event>
    requires i <= |queue| == |stamps|
  {
    if i == 0 then []
    else
      var from := FirstToSend(queue[i - 1], i - 1 < sent, stamps[i - 1], time, received);
      SendEvents(queue, stamps, sent, time, received, retired, i - 1)
      + (if from < queue[i - 1].fragCount then [Sent(retired + i - 1, from)] else [])
  }

  ghost predicate SentFrom(events: seq<Event>, id: nat, f: nat) { Sent(id, f) in events }

  /** The events are sendings, at most one of each packet, in the order of the queue. */
  ghost predicate InTurn(events: seq<Event>, retired: nat, i: nat) {
    && (forall j :: 0 <= j < |events| ==> events[j].Sent? && retired <= events[j].index < retired + i)
    && (forall j, k :: 0 <= j < k < |events| ==> events[j].index < events[k].index)
  }

  lemma {:induction false} SendEventsAre(queue: seq<Wrapper>, stamps: seq<nat>, sent: nat, time: nat, received: nat, retired: nat, i: nat)
    requires i <= |queue| == |stamps|
    ensures InTurn(SendEvents(queue, stamps, sent, time, received, retired, i), retired, i)
    ensures forall x, id, f: nat :: 0 <= x < i && id == retired + x ==>
              (SentFrom(SendEvents(queue, stamps, sent, time, received, retired, i), id, f)
               <==> f == FirstToSend(queue[x], x < sent, stamps[x], time, received) < queue[x].fragCount)
  {
    hide FirstToSend;
    if i > 0 {
      SendEventsAre(queue, stamps, sent, time, received, retired, i - 1);
      var (before, all) := (SendEvents(queue, stamps, sent, time, received, retired, i - 1), SendEvents(queue, stamps, sent, time, received, retired, i));
      forall x, id, f: nat | 0 <= x < i && id == retired + x
        ensures SentFrom(all, id, f) <==> f == FirstToSend(queue[x], x < sent, stamps[x], time, received) < queue[x].fragCount
      {
        assert x < i - 1 ==> (SentFrom(all, id, f) <==> SentFrom(before, id, f));
        assert x == i - 1 ==> !SentFrom(before, id, f);
      }
    }
  }

  /** The packet is sent once, from that fragment on. */
  ghost predicate SentOnly(events: seq<Event>, id: nat, from: nat) { forall f :: SentFrom(events, id, f) <==> f == from }

  ghost predicate NotSent(events: seq<Event>, id: nat) { forall f :: !SentFrom(events, id, f) }

  /** What a call does about one packet, which has the time `before` and gets the time `after`: it sends it whole if it
      is new, leaves it alone for 250 milliseconds, and then sends it again from the first fragment that the last ack
      does not cover. */
  ghost predicate PacketTurn(w: Wrapper, isNew: bool, before: nat, after: nat, time: nat, now: nat, received: nat, events: seq<Event>, id: nat) {
    && (isNew ==> SentOnly(events, id, 0) && after == now)
    && (!isNew && 0 <= time - before < 250 ==> NotSent(events, id) && after == before)
    && (!isNew && Due(before, time) && w.fragCount == 1 ==> SentOnly(events, id, 0) && after == now)
    && (!isNew && Due(before, time) && w.fragCount > 1 ==>
          exists from: nat :: && FirstUncovered(received, w, from)
                              && (if from < w.fragCount then SentOnly(events, id, from) && after == now else NotSent(events, id) && after == before))
  }

  lemma TurnMeans(queue: seq<Wrapper>, before: seq<nat>, after: seq<nat>, sent: nat, time: nat, received: nat, clock: nat -> nat, retired: nat, x: nat)
    requires Stamped(queue, before, after, sent, time, received, clock, |queue|) && x < |queue| && queue[x].fragCount > 0
    ensures PacketTurn(queue[x], x >= sent, before[x], after[x], time, clock(x), received,
                       SendEvents(queue, before, sent, time, received, retired, |queue|), retired + x)
  {
    SendEventsAre(queue, before, sent, time, received, retired, |queue|);
    StartMeans(queue[x], x < sent, before[x], time, received);
    hide FirstToSend, Uncovered, SendEvents, Due, FirstUncovered, InTurn, SentFrom;
    var (from, w) := (FirstToSend(queue[x], x < sent, before[x], time, received), queue[x]);
    if x < sent && Due(before[x], time) && w.fragCount > 1 { assert FirstUncovered(received, w, from); }
  }

  /** A call's turns for all queued packets. */
  ghost predicate PacketTurns(queue: seq<Wrapper>, before: seq<nat>, after: seq<nat>, sent: nat, time: nat, received: nat, clock: nat -> nat,
                              events: seq<Event>, retired: nat) {
    && |queue| == |before| == |after| && InTurn(events, retired, |queue|)
    && forall x :: 0 <= x < |queue| ==>
         PacketTurn(queue[x], x >= sent, before[x], after[x], time, clock(x), received, events, retired + x)
  }

  lemma TurnsMean(queue: seq<Wrapper>, before: seq<nat>, after: seq<nat>, sent: nat, time: nat, received: nat, clock: nat -> nat, history: seq<Wrapper>,
                  events: seq<Event>, retired: nat)
    requires Stamped(queue, before, after, sent, time, received, clock, |queue|) && IsSuffix(queue, history) && Numbered(history)
    requires events == SendEvents(queue, before, sent, time, received, retired, |queue|) && retired == |history| - |queue|
    ensures PacketTurns(queue, before, after, sent, time, received, clock, events, retired)
  {
    SendEventsAre(queue, before, sent, time, received, retired, |queue|);
    assert |queue| == |before| == |after|;
    hide FirstToSend, PacketTurn, InTurn, SendEvents, Numbered, Stamped, IsSuffix, SentFrom;
    forall x | 0 <= x < |queue| ensures PacketTurn(queue[x], x >= sent, before[x], after[x], time, clock(x), received, events, retired + x) {
      QueuedHaveFragments(queue, history, x);
      TurnMeans(queue, before, after, sent, time, received, clock, retired, x);
    }
  }

  /** The first i packets have the time of their last sending, now or before. */
  ghost predicate Stamped(queue: seq<Wrapper>, before: seq<nat>, after: seq<nat>, sent: nat, time: nat, received: nat, clock: nat -> nat, i: nat) {
    && i <= |queue| == |before| == |after|
    && (forall k :: i <= k < |queue| ==> after[k] == before[k])
    && (forall k :: 0 <= k < i ==>
          after[k] == if FirstToSend(queue[k], k < sent, before[k], time, received) < queue[k].fragCount then clock(k) else before[k])
  }

  /** What the sending loop keeps: the packets before i have been sent or skipped as they should. */
  ghost predicate Sending(queue: seq<Wrapper>, before: seq<nat>, after: seq<nat>, sent: nat, time: nat, received: nat, clock: nat -> nat, i: nat,
                          history: seq<Wrapper>, log: seq<Event>, events: seq<Event>) {
    && |queue| <= |history| && Stamped(queue, before, after, sent, time, received, clock, i)
    && Tracked(queue, if i < sent then sent else i, history, log + events)
    && events == SendEvents(queue, before, sent, time, received, |history| - |queue|, i)
  }

  lemma SendingStarts(queue: seq<Wrapper>, stamps: seq<nat>, sent: nat, time: nat, received: nat, clock: nat -> nat,
                      history: seq<Wrapper>, log: seq<Event>)
    requires |queue| == |stamps| && Tracked(queue, sent, history, log)
    ensures Sending(queue, stamps, stamps, sent, time, received, clock, 0, history, log, [])
  {
    assert log + [] == log;
  }

  lemma SendingEnds(queue: seq<Wrapper>, before: seq<nat>, after: seq<nat>, sent: nat, time: nat, received: nat, clock: nat -> nat,
                    history: seq<Wrapper>, log: seq<Event>, events: seq<Event>)
    requires Sending(queue, before, after, sent, time, received, clock, |queue|, history, log, events) && sent <= |queue| && Numbered(history)
    ensures Tracked(queue, |queue|, history, log + events) && |queue| <= |history|
    ensures events == SendEvents(queue, before, sent, time, received, |history| - |queue|, |queue|)
    ensures Stamped(queue, before, after, sent, time, received, clock, |queue|)
    ensures PacketTurns(queue, before, after, sent, time, received, clock, events, |history| - |queue|)
  {
    hide SendEvents, Stamped, PacketTurns, Numbered, WasSent, Covered;
    TurnsMean(queue, before, after, sent, time, received, clock, history, events, |history| - |queue|);
  }

  /** One turn of the sending loop that sends. */
  lemma TurnSends(queue: seq<Wrapper>, before: seq<nat>, after: seq<nat>, sent: nat, time: nat, received: nat, clock: nat -> nat, i: nat,
                  history: seq<Wrapper>, log: seq<Event>, events: seq<Event>, from: nat)
    requires Sending(queue, before, after, sent, time, received, clock, i, history, log, events) && Numbered(history) && i < |queue|
    requires from == FirstToSend(queue[i], i < sent, after[i], time, received) < queue[i].fragCount
    ensures Sending(queue, before, after[i := clock(i)], sent, time, received, clock, i + 1, history, log,
                    events + [Sent(|history| - |queue| + i, from)])
  {
    hide Covered, WasSent, Numbered, Tracked, FirstToSend;
    var e := Sent(|history| - |queue| + i, from);
    assert log + (events + [e]) == (log + events) + [e];
    FirstSendIsWhole(queue[i], after[i], time, received);
    if i >= sent {
      SuffixFits(queue, history, log + events, i);
      SendNext(queue, i, history, log + events);
    } else {
      SentAgain(queue, sent, history, log + events, e);
    }
  }

  /** One turn that skips a packet already sent. */
  lemma TurnSkips(queue: seq<Wrapper>, before: seq<nat>, after: seq<nat>, sent: nat, time: nat, received: nat, clock: nat -> nat, i: nat,
                  history: seq<Wrapper>, log: seq<Event>, events: seq<Event>)
    requires Sending(queue, before, after, sent, time, received, clock, i, history, log, events) && Numbered(history) && i < |queue|
    requires FirstToSend(queue[i], i < sent, after[i], time, received) >= queue[i].fragCount
    ensures Sending(queue, before, after, sent, time, received, clock, i + 1, history, log, events)
  {
    hide Covered, WasSent, Numbered, Tracked, FirstToSend;
    SuffixFits(queue, history, log + events, if i < sent then sent else i);
    QueuedHaveFragments(queue, history, i);
    FirstSendIsWhole(queue[i], after[i], time, received);
    assert events + [] == events;
  }

  lemma SuffixFits(queue: seq<Wrapper>, history: seq<Wrapper>, log: seq<Event>, sent: nat)
    requires Tracked(queue, sent, history, log)
    ensures IsSuffix(queue, history) && sent <= |queue| <= |history|
  {
  }

  /** The tests before the sending loop of one packet. */
  method StartOf(w: Wrapper, wasSent: bool, stamp: nat, time: nat, received: nat) returns (fragIndex: nat)
    ensures fragIndex == FirstToSend(w, wasSent, stamp, time, received)
    ensures !wasSent ==> fragIndex == 0
    ensures wasSent && 0 <= time - stamp < 250 ==> fragIndex == w.fragCount
    ensures wasSent && Due(stamp, time) && w.fragCount == 1 ==> fragIndex == 0
    ensures wasSent && Due(stamp, time) && w.fragCount > 1 ==> FirstUncovered(received, w, fragIndex)
  {
    StartMeans(w, wasSent, stamp, time, received);
    hide Due, FirstUncovered;
    fragIndex := 0;
    if wasSent {
      if (time - stamp) % 0x1_0000_0000_0000_0000 < RESEND_MILLISECONDS { return w.fragCount; }
      if w.fragCount > 1 {
        var ack := w.ackRequest as nat;
        while fragIndex < w.fragCount && !AckCompare(received, ack).Past?
          invariant fragIndex <= w.fragCount
          invariant Resume(received, ack, fragIndex, w.fragCount) == Resume(received, w.ackRequest, 0, w.fragCount)
        {
          fragIndex, ack := fragIndex + 1, ack + 1;
        }
      }
    }
  }

  /** The sending loop of network_client_trilogy_send_queued. */
  method SendLoop(queue: seq<Wrapper>, stamps: seq<nat>, sent: nat, time: nat, received: nat, clock: nat -> nat,
                  ghost history: seq<Wrapper>, ghost log: seq<Event>) returns (stamps': seq<nat>, ghost events: seq<Event>)
    requires Tracked(queue, sent, history, log) && Numbered(history) && |stamps| == |queue|
    ensures |history| >= |queue| && events == SendEvents(queue, stamps, sent, time, received, |history| - |queue|, |queue|)
    ensures Stamped(queue, stamps, stamps', sent, time, received, clock, |queue|)
    ensures Tracked(queue, |queue|, history, log + events)
    ensures PacketTurns(queue, stamps, stamps', sent, time, received, clock, events, |history| - |queue|)
  {
    SuffixFits(queue, history, log, sent);
    hide PacketTurns, IsSuffix;
    SendingStarts(queue, stamps, sent, time, received, clock, history, log);
    stamps', events := stamps, [];
    hide Numbered, Tracked, Sending, FirstToSend, Stamped, SendEvents, Due, FirstUncovered;
    for i := 0 to |queue|
      invariant |stamps'| == |queue| && Sending(queue, stamps, stamps', sent, time, received, clock, i, history, log, events)
    {
      var from := StartOf(queue[i], i < sent, stamps'[i], time, received);
      if from < queue[i].fragCount {
        TurnSends(queue, stamps, stamps', sent, time, received, clock, i, history, log, events, from);
        events := events + [Sent(|history| - |queue| + i, from)];
        stamps' := stamps'[i := clock(i)];
      } else {
        TurnSkips(queue, stamps, stamps', sent, time, received, clock, i, history, log, events);
      }
    }
    SendingEnds(queue, stamps, stamps', sent, time, received, clock, history, log, events);
  }

  /** The loop of network_client_trilogy_recv_ack_response: how many of the first n packets the ack covers, up to the
      first that it does not. */
  method CountCovered(queue: seq<Wrapper>, n: nat, ack: U16) returns (i: nat)
    requires n <= |queue|
    ensures i <= n && (forall k :: 0 <= k < i ==> queue[k].ackRequest + queue[k].fragCount <= ack + 1)
    ensures i < n ==> queue[i].ackRequest + queue[i].fragCount > ack + 1
  {
    i := 0;
    while i < n
      invariant i <= n && forall k :: 0 <= k < i ==> queue[k].ackRequest + queue[k].fragCount <= ack + 1
    {
      if Last(queue[i]) > ack { break; }
      i := i + 1;
    }
  }

  class Client {
    var queue: seq<Wrapper>
    var stamps: seq<nat>
    var sendFromIndex: nat
    var lastAckReceived: nat
    var nextAckToRequest: U16
    var nextFragGroup: U16
    var counter: Byte
    ghost var history: seq<Wrapper>
    ghost var log: seq<Event>

    ghost predicate Valid()
      reads this
    {
      && Tracked(queue, sendFromIndex, history, log) && Numbered(history) && |stamps| == |queue|
      && (nextAckToRequest == 1 + Numbers(history) || (nextAckToRequest == 0 && Numbers(history) == 0))
      && 1 + Numbers(history) < 0x10000 && nextFragGroup < 0x10000 && counter < 256
    }

    constructor ()
      ensures Valid() && queue == [] && history == [] && log == []
    {
      queue, stamps, sendFromIndex, lastAckReceived, nextAckToRequest, nextFragGroup, counter := [], [], 0, 0, 0, 0, 0;
      history, log := [], [];
    }

    /** ack_mgr_trilogy_schedule_packet: all counters wrap, and the client stays sound until the ack numbers do. */
    method Schedule(fragments: U16, noAckRequest: bool) returns (ghost w: Wrapper)
      modifies this
      ensures queue == old(queue) + [w] && stamps == old(stamps) + [0] && history == old(history) + [w] && log == old(log)
      ensures w.fragCount == (fragments + 1) % 0x10000 && (Asks(w) <==> !noAckRequest || fragments > 0)
      ensures w.header == (if noAckRequest && fragments == 0 then 0 else 0x12) + (if w.fragCount > 1 then 8 else 0)
      ensures !noAckRequest || fragments > 0 ==>
                && w.ackRequest == (if old(nextAckToRequest) == 0 then 1 else old(nextAckToRequest))
                && nextAckToRequest == (w.ackRequest + w.fragCount) % 0x10000
                && w.alwaysOne == 1 && w.counter == old(counter) && counter == (old(counter) + 1) % 256
      ensures noAckRequest && fragments == 0 ==>
                && w.ackRequest == 0 && nextAckToRequest == old(nextAckToRequest)
                && w.alwaysOne == 0 && w.counter == 0 && counter == old(counter)
      ensures if w.fragCount > 1 then w.fragGroup == old(nextFragGroup) && nextFragGroup == (old(nextFragGroup) + 1) % 0x10000
              else w.fragGroup == 0 && nextFragGroup == old(nextFragGroup)
      ensures sendFromIndex == old(sendFromIndex) && lastAckReceived == old(lastAckReceived)
      ensures old(Valid()) && 1 + Numbers(old(history)) + fragments + 1 < 0x10000 ==> Valid()
    {
      hide Tracked, Numbered, Numbers;
      var fragCount := (fragments + 1) % 0x10000;
      var header, ackRequest, alwaysOne, request, group := 0, 0, 0, 0, 0;
      if !(noAckRequest && fragments == 0) {
        if nextAckToRequest == 0 { nextAckToRequest := 1; }
        ackRequest := nextAckToRequest;
        nextAckToRequest := (nextAckToRequest + fragCount) % 0x10000;
        alwaysOne, request := 1, counter;
        counter := (counter + 1) % 256;
        header := ACKED;
      }
      if fragCount > 1 {
        header := header + IS_FRAGMENT;
        group := nextFragGroup;
        nextFragGroup := (nextFragGroup + 1) % 0x10000;
      }
      var wrapper := Wrapper(header, ackRequest, group, fragCount, alwaysOne, request);
      w := wrapper;
      if old(Valid()) && 1 + Numbers(history) + fragments + 1 < 0x10000 {
        ScheduledNext(history, w);
        TrackedNext(queue, sendFromIndex, history, log, w);
      }
      queue, stamps := queue + [wrapper], stamps + [0];
      history := history + [w];
    }

    /** network_client_trilogy_send_queued: packets not sent since the queue last moved are sent whole; the others
        again, if their time is up, from the first fragment that the last ack does not cover.  The clock is read
        at the start and after each packet. */
    method SendQueued(time: nat, clock: nat -> nat)
      requires Valid()
      modifies this`sendFromIndex, this`log, this`stamps
      ensures Valid() && sendFromIndex == |queue|
      ensures log == old(log) + SendEvents(queue, old(stamps), old(sendFromIndex), time, lastAckReceived, |history| - |queue|, |queue|)
      ensures Stamped(queue, old(stamps), stamps, old(sendFromIndex), time, lastAckReceived, clock, |queue|)
      ensures PacketTurns(queue, old(stamps), stamps, old(sendFromIndex), time, lastAckReceived, clock, log[|old(log)|..], |history| - |queue|)
    {
      hide PacketTurns, Numbered, Numbers, Covered, FirstToSend;
      ghost var events;
      stamps, events := SendLoop(queue, stamps, sendFromIndex, time, lastAckReceived, clock, history, log);
      log := log + events;
      sendFromIndex := |queue|;
    }

    /** network_client_trilogy_recv_ack_response: the sent packets that the ack covers leave, and no others. */
    method RecvAckResponse(ack: U16) returns (ghost k: nat)
      requires Valid()
      modifies this`queue, this`stamps, this`sendFromIndex, this`lastAckReceived, this`log
      ensures Valid() && log == old(log) + [Acked(ack)] && lastAckReceived == ack
      ensures k <= old(sendFromIndex) <= |old(queue)| == |old(stamps)| && queue == old(queue)[k..] && stamps == old(stamps)[k..]
      ensures forall i :: 0 <= i < k ==> Last(old(queue)[i]) <= ack
      ensures forall i :: k <= i < old(sendFromIndex) && Asks(old(queue)[i]) ==> Last(old(queue)[i]) > ack
      ensures k < old(sendFromIndex) ==> Last(old(queue)[k]) > ack
      ensures sendFromIndex == if k > 0 then 0 else old(sendFromIndex)
    {
      SuffixFits(queue, history, log, sendFromIndex);
      hide Numbers, Numbered, Covered, Tracked, IsSuffix, Asks;
      var n := sendFromIndex;
      lastAckReceived := ack;
      var i := CountCovered(queue, n, ack);
      LaterAbove(queue, history, i, n, ack);
      AckNext(queue, n, history, log, i, ack);
      log, k := log + [Acked(ack)], i;
      if i > 0 {
        queue, stamps := queue[i..], stamps[i..];
        sendFromIndex := 0;
      }
    }
  }

  lemma FirstSendIsWhole(w: Wrapper, stamp: nat, time: nat, received: nat)
    ensures FirstToSend(w, false, stamp, time, received) == 0
  {
  }

  lemma QueuedHaveFragments(queue: seq<Wrapper>, history: seq<Wrapper>, i: nat)
    requires IsSuffix(queue, history) && Numbered(history) && i < |queue|
    ensures queue[i].fragCount > 0
  {
    assert queue[i] == history[|history| - |queue| + i];
  }

  /** Sending a packet again changes nothing of what was sent and acknowledged before. */
  lemma SentAgain(queue: seq<Wrapper>, sent: nat, history: seq<Wrapper>, log: seq<Event>, e: Event)
    requires Tracked(queue, sent, history, log)
    ensures Tracked(queue, sent, history, log + [e])
  {
    hide Covered;
    var retired := |history| - |queue|;
    var log' := log + [e];
    forall i | retired <= i < retired + sent ensures WasSent(log', i) { assert WasSent(log, i); }
    forall i | 0 <= i < retired ensures Covered(log', i, Last(history[i])) {
      CoveredStays(log, [e], i, Last(history[i]));
    }
  }

  lemma SendNext(queue: seq<Wrapper>, sent: nat, history: seq<Wrapper>, log: seq<Event>)
    requires Tracked(queue, sent, history, log) && sent < |queue|
    ensures Tracked(queue, sent + 1, history, log + [Sent(|history| - |queue| + sent, 0)])
  {
    var e := Sent(|history| - |queue| + sent, 0);
    var log' := log + [e];
    SentAgain(queue, sent, history, log, e);
    hide Covered;
    assert log'[|log|] == e;
  }

  /** The first i packets of the queue, sent and covered by the ack, may leave. */
  lemma AckNext(queue: seq<Wrapper>, sent: nat, history: seq<Wrapper>, log: seq<Event>, i: nat, ack: nat)
    requires Tracked(queue, sent, history, log) && i <= sent && forall k :: 0 <= k < i ==> Last(queue[k]) <= ack
    ensures Tracked(queue[i..], if i > 0 then 0 else sent, history, log + [Acked(ack)])
  {
    var retired := |history| - |queue|;
    var log' := log + [Acked(ack)];
    forall x | retired <= x < retired + sent ensures WasSent(log', x) { assert WasSent(log, x); }
    forall x | 0 <= x < retired + i ensures Covered(log', x, Last(history[x])) {
      if x < retired {
        CoveredStays(log, [Acked(ack)], x, Last(history[x]));
      } else {
        assert WasSent(log, x) && history[x] == queue[x - retired];
        NowCovered(log, x, Last(history[x]), ack);
      }
    }
  }

  lemma NowCovered(log: seq<Event>, i: nat, last: int, ack: nat)
    requires WasSent(log, i) && last <= ack
    ensures Covered(log + [Acked(ack)], i, last)
  {
    var s :| 0 <= s < |log| && log[s] == Sent(i, 0);
    var log' := log + [Acked(ack)];
    assert log'[s] == Sent(i, 0) && log'[|log|] == Acked(ack);
  }

  /** Behind the first packet that the ack does not cover, none that asks for an ack is covered. */
  lemma LaterAbove(queue: seq<Wrapper>, history: seq<Wrapper>, i: nat, n: nat, ack: nat)
    requires IsSuffix(queue, history) && Numbered(history) && i <= n <= |queue| && (i < n ==> Last(queue[i]) > ack)
    ensures forall k :: i <= k < n && Asks(queue[k]) ==> Last(queue[k]) > ack
  {
    var retired := |history| - |queue|;
    forall k | i < k < n && Asks(queue[k]) ensures Last(queue[k]) > ack {
      assert queue[i] == history[retired + i] && queue[k] == history[retired + k];
      NumbersFollow(history, retired + i, retired + k);
    }
  }

  lemma TrackedNext(queue: seq<Wrapper>, sent: nat, history: seq<Wrapper>, log: seq<Event>, w: Wrapper)
    requires Tracked(queue, sent, history, log)
    ensures Tracked(queue + [w], sent, history + [w], log)
  {
    hide Covered, Last, WasSent;
  }

  lemma ScheduledNext(history: seq<Wrapper>, w: Wrapper)
    requires Numbered(history) && Scheduled(w) && w.ackRequest == if Asks(w) then 1 + Numbers(history) else 0
    ensures Numbered(history + [w]) && Numbers(history + [w]) == Numbers(history) + (if Asks(w) then w.fragCount else 0)
  {
    var h := history + [w];
    assert h[..|history|] == history;
    forall i | 0 <= i < |h| ensures Scheduled(h[i]) && h[i].ackRequest == if Asks(h[i]) then 1 + Numbers(h[..i]) else 0 {
      assert i < |history| ==> h[..i] == history[..i];
    }
  }
}
