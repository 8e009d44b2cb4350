/** The debouncer thread: bursts of raw events, split by silence, each sent as one settled batch. */
module Debounce {
  import opened Basics
  import opened WatchEvents

  /** What the receiving end observes next: an event, a silence of one debounce window, or the sender's end. */
  datatype Signal = Received(event: RawEvent) | Silence | Disconnected

  /** Received events divided into finished bursts and the burst still open. */
  datatype Division = Division(bursts: seq<seq<RawEvent>>, pending: seq<RawEvent>)

  /** A silence closes the open burst, if there is one; a disconnect closes it and ends the run. */
  function Divide(signals: seq<Signal>, open: seq<RawEvent>): Division
    decreases |signals|
  {
    if signals == [] then Division([], open)
    else match signals[0]
      case Received(event) => Divide(signals[1..], open + [event])
      case Silence =>
        if open == [] then Divide(signals[1..], [])
        else var rest := Divide(signals[1..], []); rest.(bursts := [open] + rest.bursts)
      case Disconnected => Division(if open == [] then [] else [open], [])
  }

  /** The events the thread sees: everything before the sender goes away. */
  function Events(signals: seq<Signal>): seq<RawEvent>
    decreases |signals|
  {
    if signals == [] || signals[0].Disconnected? then []
    else (if signals[0].Received? then [signals[0].event] else []) + Events(signals[1..])
  }

  function Flatten(bursts: seq<seq<RawEvent>>): seq<RawEvent> {
    if bursts == [] then [] else bursts[0] + Flatten(bursts[1..])
  }

  /** `send_settled`: fails once the receiver is closed. */
  method SendSettled(batch: map<Path, Kind>, sent: seq<seq<WatchEvent>>, limit: Option<nat>, before: PathOrder)
    returns (sent': seq<seq<WatchEvent>>, ok: bool)
    requires TotalOrder(before)
    ensures ok <==> limit.None? || |sent| < limit.value
    ensures !ok ==> sent' == sent
    ensures ok ==> |sent'| == |sent| + 1 && sent'[..|sent|] == sent
    ensures ok ==> Lists(sent'[|sent|], batch) && Ascending(sent'[|sent|], before)
  {
    var settled := Settled(batch, before);
    if limit.Some? && |sent| >= limit.value {
      return sent, false;
    }
    return sent + [settled], true;
  }

  /** How the inner receive loop ends. */
  datatype Ending = WentQuiet | SenderGone | StillOpen

  /** The inner loop: absorb every event until a silence, the sender's end, or the end of what is observed. */
  method CollectBurst(signals: seq<Signal>, start: nat, batch0: map<Path, Kind>, ghost open0: seq<RawEvent>)
    returns (i: nat, batch: map<Path, Kind>, ending: Ending, ghost open: seq<RawEvent>)
    requires start <= |signals| && open0 != [] && batch0 == Summary(open0)
    ensures start <= i <= |signals| && batch == Summary(open)
    ensures Divide(signals[start..], open0).bursts ==
            match ending
            case WentQuiet => [open] + Divide(signals[i..], []).bursts
            case SenderGone => [open]
            case StillOpen => []
  {
    hide Summary;
    i, batch, open := start, batch0, open0;
    while i < |signals|
      invariant start <= i <= |signals| && open != [] && batch == Summary(open)
      invariant Divide(signals[start..], open0) == Divide(signals[i..], open)
    {
      var next := signals[i];
      assert signals[i..][1..] == signals[i + 1..];
      i := i + 1;
      match next {
        case Received(event) =>
          batch := Absorb(event, batch, open);
          open := open + [event];
        case Silence =>
          return i, batch, WentQuiet, open;
        case Disconnected =>
          return i, batch, SenderGone, open;
      }
    }
    return i, batch, StillOpen, open;
  }

  ghost predicate SentSoFar(sent: seq<seq<WatchEvent>>, bursts: seq<seq<RawEvent>>, before: PathOrder) {
    && |sent| <= |bursts|
    && forall i :: 0 <= i < |sent| ==> Lists(sent[i], Summary(bursts[i])) && Ascending(sent[i], before)
  }

  /** The thread's receive loop, over any finite observation of the channel. */
  method RunDebouncer(signals: seq<Signal>, limit: Option<nat>, before: PathOrder)
    returns (sent: seq<seq<WatchEvent>>)
    requires TotalOrder(before)
    ensures var bursts := Divide(signals, []).bursts;
            && |sent| == (if limit.None? then |bursts| else Min(|bursts|, limit.value))
            && forall i :: 0 <= i < |sent| ==> Lists(sent[i], Summary(bursts[i])) && Ascending(sent[i], before)
  {
    hide Summary, Lists, Ascending, TotalOrder;
    ghost var bursts := Divide(signals, []).bursts;
    sent := [];
    var i := 0;
    while i < |signals|
      invariant i <= |signals|
      invariant SentSoFar(sent, bursts, before)
      invariant bursts[|sent|..] == Divide(signals[i..], []).bursts
      invariant limit.Some? ==> |sent| <= limit.value
    {
      var first := signals[i];
      assert signals[i..][1..] == signals[i + 1..];
      i := i + 1;
      if first.Disconnected? {
        return;
      }
      if first.Received? {
        EmptySummary();
        var batch := Absorb(first.event, map[], []);
        var ending: Ending;
        ghost var open;
        assert [] + [first.event] == [first.event];
        i, batch, ending, open := CollectBurst(signals, i, batch, [first.event]);
        if ending.StillOpen? {
          return;
        }
        assert bursts[|sent|] == open && bursts[|sent| + 1..] == bursts[|sent|..][1..];
        ghost var earlier := sent;
        var ok: bool;
        sent, ok := SendSettled(batch, sent, limit, before);
        assert forall k :: 0 <= k < |earlier| ==> sent[k] == earlier[k];
        if ending.SenderGone? || !ok {
          return;
        }
      }
    }
  }

  // ----- nothing is lost -----

  lemma {:induction false} NothingLostFrom(signals: seq<Signal>, open: seq<RawEvent>)
    ensures var d := Divide(signals, open); Flatten(d.bursts) + d.pending == open + Events(signals)
    decreases |signals|
  {
    if signals == [] {
      assert Flatten([]) + open == open + [];
    } else {
      var rest, d := signals[1..], Divide(signals, open);
      match signals[0]
      case Received(event) =>
        NothingLostFrom(rest, open + [event]);
        assert open + [event] + Events(rest) == open + ([event] + Events(rest));
      case Silence =>
        NothingLostFrom(rest, []);
        var d' := Divide(rest, []);
        assert Flatten(d'.bursts) + d'.pending == Events(rest) == Events(signals);
        if open != [] {
          assert d.bursts[0] == open && d.bursts[1..] == d'.bursts;
          assert open + Flatten(d'.bursts) + d'.pending == open + (Flatten(d'.bursts) + d'.pending);
        } else {
          assert open + Events(rest) == Events(rest);
        }
      case Disconnected =>
        if open != [] { assert d.bursts[1..] == []; }
        assert Flatten(d.bursts) == open && open + [] == open;
    }
  }

  lemma {:induction false} NoBurstIsEmpty(signals: seq<Signal>, open: seq<RawEvent>)
    ensures forall i :: 0 <= i < |Divide(signals, open).bursts| ==> Divide(signals, open).bursts[i] != []
    decreases |signals|
  {
    if signals == [] {
    } else {
      match signals[0]
      case Received(event) => NoBurstIsEmpty(signals[1..], open + [event]);
      case Silence => NoBurstIsEmpty(signals[1..], []);
      case Disconnected =>
    }
  }

  /** Every received event is in exactly one burst, in order, and no burst is empty; only the burst that no silence
      or disconnect has closed yet is still held back. */
  lemma NothingLost(signals: seq<Signal>)
    ensures var d := Divide(signals, []);
            && Flatten(d.bursts) + d.pending == Events(signals)
            && forall i :: 0 <= i < |d.bursts| ==> d.bursts[i] != []
  {
    NothingLostFrom(signals, []);
    NoBurstIsEmpty(signals, []);
    assert [] + Events(signals) == Events(signals);
  }

  /** Dividing one stretch after another: what the first leaves open is where the second begins. */
  lemma {:induction false} DividedConcat(a: seq<Signal>, b: seq<Signal>, open: seq<RawEvent>)
    requires Disconnected !in a
    ensures var d := Divide(a, open);
            && Divide(a + b, open).bursts == d.bursts + Divide(b, d.pending).bursts
            && Divide(a + b, open).pending == Divide(b, d.pending).pending
    decreases |a|
  {
    if a == [] {
      assert a + b == b;
    } else {
      assert (a + b)[0] == a[0] && (a + b)[1..] == a[1..] + b;
      match a[0]
      case Received(event) => DividedConcat(a[1..], b, open + [event]);
      case Silence =>
        DividedConcat(a[1..], b, []);
        if open != [] {
          var d := Divide(a[1..], []);
          assert [open] + (d.bursts + Divide(b, d.pending).bursts) == [open] + d.bursts + Divide(b, d.pending).bursts;
        }
    }
  }

  /** Whatever comes later, a silence or a disconnect delivers all that was received before it: the events up to it
      are the first bursts, and what follows starts afresh. */
  lemma ClosedBurstsDelivered(before: seq<Signal>, close: Signal, after: seq<Signal>)
    requires Disconnected !in before && !close.Received?
    ensures var d := Divide(before + [close], []);
            && d.pending == [] && Flatten(d.bursts) == Events(before)
            && d.bursts <= Divide(before + [close] + after, []).bursts
            && (close.Silence? ==> Divide(before + [close] + after, []).bursts == d.bursts + Divide(after, []).bursts)
            && (close.Disconnected? ==> Divide(before + [close] + after, []).bursts == d.bursts)
  {
    DividedConcat(before, [close], []);
    DividedConcat(before, [close] + after, []);
    var open := Divide(before, []).pending;
    assert before + [close] + after == before + ([close] + after);
    assert ([close] + after)[1..] == after && [close][1..] == [];
    NothingLost(before);
    var head := Divide(before, []).bursts;
    if open == [] {
      assert Divide(before + [close], []).bursts == head + [] == head;
      assert Flatten(head) + [] == Flatten(head);
    } else {
      FlattenConcat(head, [open]);
      assert Flatten([open]) == open + Flatten([open][1..]) == open;
      assert Divide(before + [close], []).bursts == head + [open];
      assert head + ([open] + Divide(after, []).bursts) == head + [open] + Divide(after, []).bursts;
    }
  }

  lemma {:induction false} FlattenConcat(a: seq<seq<RawEvent>>, b: seq<seq<RawEvent>>)
    ensures Flatten(a + b) == Flatten(a) + Flatten(b)
  {
    if a == [] {
      assert a + b == b;
    } else {
      assert (a + b)[1..] == a[1..] + b;
      FlattenConcat(a[1..], b);
    }
  }

  // ----- what shares a burst -----

  /** Without a silence nothing is closed: the burst just grows. */
  lemma {:induction false} UnbrokenGrows(signals: seq<Signal>, open: seq<RawEvent>)
    requires Silence !in signals && Disconnected !in signals
    ensures Divide(signals, open) == Division([], open + Events(signals))
    decreases |signals|
  {
    if signals == [] {
      assert open + [] == open;
    } else {
      assert signals[0] in signals;
      var event := signals[0].event;
      UnbrokenGrows(signals[1..], open + [event]);
      assert open + [event] + Events(signals[1..]) == open + ([event] + Events(signals[1..]));
    }
  }

  /** A silence closes an open burst. */
  lemma {:induction false} SilenceCloses(signals: seq<Signal>, open: seq<RawEvent>)
    requires open != [] && Silence in signals && Disconnected !in signals
    ensures |Divide(signals, open).bursts| > 0
    decreases |signals|
  {
    assert signals[0] in signals;
    if signals[0].Silence? {
    } else {
      assert Silence in signals[1..];
      SilenceCloses(signals[1..], open + [signals[0].event]);
    }
  }

  /** Events that arrive without a silence between them are one burst, sent when a silence or a disconnect closes it. */
  lemma UnbrokenIsOneBurst(signals: seq<Signal>, close: Signal)
    requires signals != [] && Silence !in signals && Disconnected !in signals && !close.Received?
    ensures Divide(signals, []) == Division([], Events(signals))
    ensures Divide(signals + [close], []).bursts == [Events(signals)]
  {
    UnbrokenGrows(signals, []);
    assert [] + Events(signals) == Events(signals);
    DividedConcat(signals, [close], []);
    assert signals[0] in signals;
    assert [close][1..] == [];
    assert [Events(signals)] + [] == [Events(signals)];
  }

  /** How many bursts are finished before position `p`, and how many events the open one then holds. */
  function BurstAt(signals: seq<Signal>, p: nat): nat
    requires p <= |signals|
  {
    |Divide(signals[..p], []).bursts|
  }
  function PlaceAt(signals: seq<Signal>, p: nat): nat
    requires p <= |signals|
  {
    |Divide(signals[..p], []).pending|
  }

  /** The bursts of a run, the one still open last. */
  function AllBursts(d: Division): seq<seq<RawEvent>> { d.bursts + [d.pending] }

  lemma {:induction false} OpenBurstFirst(signals: seq<Signal>, open: seq<RawEvent>)
    requires open != []
    ensures open <= AllBursts(Divide(signals, open))[0]
    decreases |signals|
  {
    if signals == [] {
    } else if signals[0].Received? {
      OpenBurstFirst(signals[1..], open + [signals[0].event]);
      assert open <= open + [signals[0].event];
    } else {
      assert Divide(signals, open).bursts[0] == open;
    }
  }

  /** Every received event is in the burst that was open when it arrived, behind the events received in it before. */
  lemma EventInItsBurst(signals: seq<Signal>, p: nat)
    requires p < |signals| && signals[p].Received? && Disconnected !in signals[..p]
    ensures var all, b, o := AllBursts(Divide(signals, [])), BurstAt(signals, p), PlaceAt(signals, p);
            b < |all| && o < |all[b]| && all[b][o] == signals[p].event
  {
    var d, event := Divide(signals[..p], []), signals[p].event;
    assert signals == signals[..p] + signals[p..];
    DividedConcat(signals[..p], signals[p..], []);
    var rest := Divide(signals[p..], d.pending);
    assert signals[p..][1..] == signals[p + 1..];
    assert rest == Divide(signals[p + 1..], d.pending + [event]);
    OpenBurstFirst(signals[p + 1..], d.pending + [event]);
    assert AllBursts(Divide(signals, []))[|d.bursts|] == AllBursts(rest)[0];
    assert (d.pending + [event])[|d.pending|] == event;
  }

  /** Two received events are in the same burst if and only if no silence lies between them. */
  lemma SameBurstIff(signals: seq<Signal>, i: nat, j: nat)
    requires i < j < |signals| && signals[i].Received? && signals[j].Received? && Disconnected !in signals[..j]
    ensures BurstAt(signals, i) == BurstAt(signals, j) <==> Silence !in signals[i..j]
  {
    var between, d := signals[i..j], Divide(signals[..i], []);
    assert signals[..j] == signals[..i] + between;
    DividedConcat(signals[..i], between, []);
    assert between[0] == signals[i];
    var rest := between[1..];
    assert Divide(between, d.pending) == Divide(rest, d.pending + [signals[i].event]);
    assert between == [signals[i]] + rest;
    if Silence in between {
      SilenceCloses(rest, d.pending + [signals[i].event]);
    } else {
      UnbrokenGrows(rest, d.pending + [signals[i].event]);
    }
  }
}
