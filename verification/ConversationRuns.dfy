/** What holds of every run of the conversation service, from boot, under any sequence of events. */
module ConversationRuns {
  import opened Wire
  import opened Conversation

  lemma SlotStep(maxMsg: nat, wakes: bool, log: seq<Event>, i: nat)
    requires i < MAX_CONNS && log != []
    ensures var n := |log| - 1;
            var s := Run(maxMsg, wakes, log[..n]);
            && Run(maxMsg, wakes, log).convs[i] == ConvStep(s.convs[i], i, log[n], FirstFree(s.convs), maxMsg, n)
            && (i == FirstFree(s.convs) ==> !s.convs[i].inUse)
            && log == log[..n] + [log[n]]
  {
    hide ConvStep, Step, FirstFree, Boot;
    StepOneSlot(Run(maxMsg, wakes, log[..|log| - 1]), log[|log| - 1], i);
  }

  lemma StepOneSlot(s: Service, e: Event, i: nat)
    requires i < |s.convs|
    ensures Step(s, e).convs[i] == ConvStep(s.convs[i], i, e, FirstFree(s.convs), s.maxMsg, s.now)
  {
    hide ConvStep, FirstFree, DropCount;
  }

  lemma {:induction false} RunGood(maxMsg: nat, wakes: bool, log: seq<Event>, i: nat)
    requires i < MAX_CONNS
    ensures Good(Run(maxMsg, wakes, log).convs[i], log, maxMsg)
  {
    if log == [] {
      assert Run(maxMsg, wakes, log).convs[i] == Idle(wakes);
    } else {
      hide ConvStep, Good;
      var n := |log| - 1;
      var prev, s := log[..n], Run(maxMsg, wakes, log[..n]);
      RunGood(maxMsg, wakes, prev, i);
      SlotStep(maxMsg, wakes, log, i);
      ConvStepKeepsQueue(s.convs[i], i, log[n], FirstFree(s.convs), prev, maxMsg);
      ConvStepKeepsLedger(s.convs[i], i, log[n], FirstFree(s.convs), prev, maxMsg);
    }
  }

  lemma QueueGoodAt(maxMsg: nat, wakes: bool, log: seq<Event>, i: nat)
    requires i < MAX_CONNS
    ensures QueueGood(Run(maxMsg, wakes, log).convs[i], log, maxMsg)
    ensures LedgerGood(Run(maxMsg, wakes, log).convs[i], |log|)
  {
    hide ConvStep;
    RunGood(maxMsg, wakes, log, i);
  }

  // ---- agreement between what was matched and what is read ----

  function BindingOf(c: Conv): (bool, ConvState, Addr) { (c.inUse, c.state, c.peer) }

  /** A datagram still queued after an event was queued before it or by it, and the event left the
      slot's binding alone. */
  lemma StepKeepsBinding(c: Conv, j: nat, e: Event, free: nat, log: seq<Event>, maxMsg: nat, d: Dgram)
    requires QueueGood(c, log, maxMsg) && (j == free ==> !c.inUse)
    requires d in ConvStep(c, j, e, free, maxMsg, |log|).rxq && d.stamp.Some?
    ensures BindingOf(ConvStep(c, j, e, free, maxMsg, |log|)) == BindingOf(c)
    ensures d in c.rxq || d.stamp.value == |log|
  {
    hide FromCurrentBinding, Takes, Ident, Stamps, Elements;
    if e.Arrive? {
      ArrivalKeepsBinding(c, e.arrival, maxMsg, |log|, d);
    } else if !e.BeginRead? && !e.GiveUp? && !e.FinishRead? {
      if !c.inUse || c.state.Unconnected? {
        NoDataLeft(c, log, maxMsg);
      }
    }
  }

  lemma ArrivalKeepsBinding(c: Conv, a: Arrival, maxMsg: nat, now: nat, d: Dgram)
    requires d in Receive(c, a, maxMsg, now).rxq
    ensures BindingOf(Receive(c, a, maxMsg, now)) == BindingOf(c)
    ensures d in c.rxq || d.stamp == Some(now)
  {
    hide Takes, Ident;
  }

  /** While a datagram is queued its slot keeps the binding it arrived under, from the moment before
      it arrived until now: no hang-up, re-connect, free or re-allocation comes between. */
  lemma {:induction false} BindingHeldWhileQueued(maxMsg: nat, wakes: bool, log: seq<Event>, i: nat, d: Dgram, u: nat)
    requires i < MAX_CONNS && d in Run(maxMsg, wakes, log).convs[i].rxq
    requires d.stamp.Some? && d.stamp.value <= u <= |log|
    ensures BindingOf(Run(maxMsg, wakes, log[..u]).convs[i]) == BindingOf(Run(maxMsg, wakes, log).convs[i])
  {
    if u == |log| {
      assert log[..u] == log;
    } else {
      hide ConvStep, Good;
      var n := |log| - 1;
      var s := Run(maxMsg, wakes, log[..n]);
      QueueGoodAt(maxMsg, wakes, log[..n], i);
      SlotStep(maxMsg, wakes, log, i);
      StepKeepsBinding(s.convs[i], i, log[n], FirstFree(s.convs), log[..n], maxMsg, d);
      if u < n {
        BindingHeldWhileQueued(maxMsg, wakes, log[..n], i, d, u);
        assert log[..n][..u] == log[..u];
      }
    }
  }

  /** d is an arrival that the slot's present state and peer are for. */
  predicate Fits(c: Conv, d: Dgram, log: seq<Event>, maxMsg: nat) {
    && c.inUse && d != EOF && d.stamp.Some? && d.stamp.value < |log| && log[d.stamp.value].Arrive?
    && var a := log[d.stamp.value].arrival;
       d == AsDgram(a, maxMsg, d.stamp.value)
       && match c.state
          case Unconnected => false
          case Announced => !a.broadcast
          case Broadcast => a.broadcast
          case Connected =>
            && !a.broadcast
            && (c.peer == a.src || c.peer == Ident(a)
                || (c.peer in a.routes.addrOf && a.routes.addrOf[c.peer] == a.src))
  }

  lemma BindingFits(c: Conv, d: Dgram, log: seq<Event>, maxMsg: nat)
    requires FromCurrentBinding(c, d, log, maxMsg)
    ensures Fits(c, d, log, maxMsg)
  {
  }

  /** In every run: nothing but a sentinel waits in an unbound slot, only matches of the present peer in a
      connected one, only broadcasts on a party line, only unicasts in an announced one; and a sentinel
      is never behind anything. */
  lemma QueueFitsBinding(maxMsg: nat, wakes: bool, log: seq<Event>, i: nat)
    requires i < MAX_CONNS
    ensures var c := Run(maxMsg, wakes, log).convs[i];
            forall k | 0 <= k < |c.rxq| && (k > 0 || c.rxq[k] != EOF) :: Fits(c, c.rxq[k], log, maxMsg)
  {
    QueueGoodAt(maxMsg, wakes, log, i);
    var c := Run(maxMsg, wakes, log).convs[i];
    hide Run, FromCurrentBinding, Fits;
    forall k | 0 <= k < |c.rxq| && (k > 0 || c.rxq[k] != EOF)
      ensures Fits(c, c.rxq[k], log, maxMsg)
    {
      BindingFits(c, c.rxq[k], log, maxMsg);
    }
  }

  /** Whether the source address belongs in front of what a read returns, judged at receipt. */
  predicate WantsSource(c: Conv, a: Arrival) { a.broadcast || c.state.Announced? }

  /** Framing decided from the state at dequeue agrees with the match made at receipt: the head of
      any queue in any run was taken by the slot under its present binding, and it carries the source
      prefix exactly when the arrival was matched as a broadcast or by an announced conversation. */
  lemma ReadAgreesWithMatch(maxMsg: nat, wakes: bool, log: seq<Event>, i: nat, count: nat)
    requires i < MAX_CONNS && Run(maxMsg, wakes, log).convs[i].rxq != []
    ensures var c := Run(maxMsg, wakes, log).convs[i];
            var d := c.rxq[0];
            d == EOF ||
            (&& d.stamp.Some? && d.stamp.value < |log| && log[d.stamp.value].Arrive?
             && var a := log[d.stamp.value].arrival;
                var matched := Run(maxMsg, wakes, log[..d.stamp.value]).convs[i];
                && matched.inUse && Takes(matched, a) && BindingOf(matched) == BindingOf(c)
                && d == AsDgram(a, maxMsg, d.stamp.value)
                && (d.data != [] ==>
                      Frame(c.state, d, count)
                      == if WantsSource(matched, a)
                         then if count < 6 + |d.data| then TooSmall else Delivered(Ident(a) + d.data)
                         else if count < |d.data| then TooSmall else Delivered(d.data)))
  {
    RunGood(maxMsg, wakes, log, i);
    var c := Run(maxMsg, wakes, log).convs[i];
    if c.rxq[0] != EOF {
      BindingHeldWhileQueued(maxMsg, wakes, log, i, c.rxq[0], c.rxq[0].stamp.value);
    }
  }

  /** d is what the slot took at the event it is stamped with. */
  predicate TakenAs(maxMsg: nat, wakes: bool, log: seq<Event>, i: nat, d: Dgram)
    requires i < MAX_CONNS
  {
    && d.stamp.Some? && d.stamp.value < |log| && log[d.stamp.value].Arrive?
    && var c := Run(maxMsg, wakes, log[..d.stamp.value]).convs[i];
       var a := log[d.stamp.value].arrival;
       c.inUse && Takes(c, a) && d == AsDgram(a, maxMsg, d.stamp.value)
  }

  /** Where a datagram in a reader's hand comes from: it was there, was the head of the queue, is a sentinel,
      or is the event's own arrival, put straight to the parked reader. */
  lemma HandStep(c: Conv, i: nat, e: Event, free: nat, maxMsg: nat, now: nat)
    ensures var h := ConvStep(c, i, e, free, maxMsg, now).hand;
            || h.None? || h == c.hand || h == Some(EOF)
            || (c.rxq != [] && h == Some(c.rxq[0]))
            || (e.Arrive? && c.inUse && Takes(c, e.arrival) && h == Some(AsDgram(e.arrival, maxMsg, now)))
  {
    hide AsDgram, Takes, Stamps;
  }

  lemma StillTaken(maxMsg: nat, wakes: bool, log: seq<Event>, n: nat, i: nat, d: Dgram)
    requires i < MAX_CONNS && n <= |log| && TakenAs(maxMsg, wakes, log[..n], i, d)
    ensures TakenAs(maxMsg, wakes, log, i, d)
  {
    hide Run;
    assert log[..n][..d.stamp.value] == log[..d.stamp.value];
  }

  lemma QueuedWasTaken(maxMsg: nat, wakes: bool, log: seq<Event>, i: nat)
    requires i < MAX_CONNS && Run(maxMsg, wakes, log).convs[i].rxq != []
    ensures var d := Run(maxMsg, wakes, log).convs[i].rxq[0]; d == EOF || TakenAs(maxMsg, wakes, log, i, d)
  {
    hide Run;
    ReadAgreesWithMatch(maxMsg, wakes, log, i, 0);
  }

  /** Whatever a reader holds, from the queue or put straight into its hand, the slot took. */
  lemma {:induction false} HandWasTaken(maxMsg: nat, wakes: bool, log: seq<Event>, i: nat)
    requires i < MAX_CONNS
    ensures var h := Run(maxMsg, wakes, log).convs[i].hand;
            h.None? || h == Some(EOF) || TakenAs(maxMsg, wakes, log, i, h.value)
  {
    if log == [] {
      assert Run(maxMsg, wakes, log).convs[i] == Idle(wakes);
    } else {
      hide Run, ConvStep, TakenAs;
      var n := |log| - 1;
      var c, h := Run(maxMsg, wakes, log[..n]).convs[i], Run(maxMsg, wakes, log).convs[i].hand;
      HandWasTaken(maxMsg, wakes, log[..n], i);
      SlotStep(maxMsg, wakes, log, i);
      HandStep(c, i, log[n], FirstFree(Run(maxMsg, wakes, log[..n]).convs), maxMsg, n);
      if h.Some? && h != Some(EOF) {
        if log[n].Arrive? && c.inUse && Takes(c, log[n].arrival) && h == Some(AsDgram(log[n].arrival, maxMsg, n)) {
          ArrivalIsTaken(maxMsg, wakes, log, i);
        } else {
          if h != c.hand {
            QueuedWasTaken(maxMsg, wakes, log[..n], i);
          }
          StillTaken(maxMsg, wakes, log, n, i, h.value);
        }
      }
    }
  }

  lemma ArrivalIsTaken(maxMsg: nat, wakes: bool, log: seq<Event>, i: nat)
    requires i < MAX_CONNS && log != [] && log[|log| - 1].Arrive?
    requires var n := |log| - 1;
             var c := Run(maxMsg, wakes, log[..n]).convs[i]; c.inUse && Takes(c, log[n].arrival)
    ensures TakenAs(maxMsg, wakes, log, i, AsDgram(log[|log| - 1].arrival, maxMsg, |log| - 1))
  {
    hide Run;
  }

  /** What a read in flight returns, in every run: the framing that was due when the datagram was received,
      if and only if the state now calls for a prefix exactly when the state then did. */
  lemma ReadIsFramedAsMatched(maxMsg: nat, wakes: bool, log: seq<Event>, i: nat, d: Dgram, count: nat)
    requires i < MAX_CONNS && Run(maxMsg, wakes, log).convs[i].hand == Some(d)
    requires d.data != [] && count >= |d.data| + 6
    ensures TakenAs(maxMsg, wakes, log, i, d)
    ensures var now, matched := Run(maxMsg, wakes, log).convs[i], Run(maxMsg, wakes, log[..d.stamp.value]).convs[i];
            var a := log[d.stamp.value].arrival;
            Frame(now.state, d, count) == Delivered(if WantsSource(matched, a) then Ident(a) + d.data else d.data)
            <==> SourcePrefixed(now.state) == SourcePrefixed(matched.state)
  {
    hide Run;
    HandWasTaken(maxMsg, wakes, log, i);
    var now, matched := Run(maxMsg, wakes, log).convs[i], Run(maxMsg, wakes, log[..d.stamp.value]).convs[i];
    DeferredFraming(matched.state, now.state, d, count);
  }

  /** The read drops the lock between dequeue and framing. A datagram framed later, in state `later`,
      reads as it would have at dequeue if and only if neither or both states call for the prefix. */
  lemma DeferredFraming(atDequeue: ConvState, later: ConvState, d: Dgram, count: nat)
    requires d.data != [] && count >= |d.data| + 6
    ensures Frame(later, d, count) == Frame(atDequeue, d, count)
            <==> SourcePrefixed(later) == SourcePrefixed(atDequeue)
  {
    assert |d.src + d.data| == 6 + |d.data|;
  }

  /** A re-bind inside that window misframes: a unicast datagram is returned with a source prefix. */
  lemma RebindDuringReadMisframes(wakes: bool)
    ensures var a := Arrival([1, 1, 1, 1, 1, 1], [7], false, Routes(map[], map[]));
            var before := [Clone, Ctl(0, Connect(Some(a.src))), Arrive(a), BeginRead(0)];
            var after := before + [Ctl(0, Hangup), Ctl(0, Connect(Some(BCAST)))];
            && Run(8, wakes, before).convs[0].hand == Some(AsDgram(a, 8, 2))
            && Run(8, wakes, after).convs[0].hand == Some(AsDgram(a, 8, 2))
            && Frame(Run(8, wakes, before).convs[0].state, AsDgram(a, 8, 2), 100) == Delivered([7])
            && Frame(Run(8, wakes, after).convs[0].state, AsDgram(a, 8, 2), 100) == Delivered(a.src + [7])
  {
    hide Run, ConvStep, Frame;
    var a := Arrival([1, 1, 1, 1, 1, 1], [7], false, Routes(map[], map[]));
    var e0, e1, e2, e3 := Clone, Ctl(0, Connect(Some(a.src))), Arrive(a), BeginRead(0);
    var e4, e5 := Ctl(0, Hangup), Ctl(0, Connect(Some(BCAST)));
    Booted(8, wakes);
    var c0 := SlotZero(8, wakes, [], e0, [e0], Idle(wakes));
    var c1 := SlotZero(8, wakes, [e0], e1, [e0, e1], c0);
    var c2 := SlotZero(8, wakes, [e0, e1], e2, [e0, e1, e2], c1);
    var c3 := SlotZero(8, wakes, [e0, e1, e2], e3, [e0, e1, e2, e3], c2);
    var c4 := SlotZero(8, wakes, [e0, e1, e2, e3], e4, [e0, e1, e2, e3, e4], c3);
    var c5 := SlotZero(8, wakes, [e0, e1, e2, e3, e4], e5, [e0, e1, e2, e3, e4, e5], c4);
    assert [e0, e1, e2, e3] + [e4, e5] == [e0, e1, e2, e3, e4, e5];
    RebindFirstHalf(a, wakes);
    RebindSecondHalf(c3, AsDgram(a, 8, 2));
    FramedBoth(AsDgram(a, 8, 2));
  }

  /** Slot 0 through one event, from its second on. */
  function After(c: Conv, e: Event, now: nat): Conv { ConvStep(c, 0, e, 1, 8, now) }

  lemma RebindFirstHalf(a: Arrival, wakes: bool)
    requires a == Arrival([1, 1, 1, 1, 1, 1], [7], false, Routes(map[], map[]))
    ensures var c0 := ConvStep(Idle(wakes), 0, Clone, 0, 8, 0);
            var c3 := After(After(After(c0, Ctl(0, Connect(Some(a.src))), 1), Arrive(a), 2), BeginRead(0), 3);
            && c0.inUse && After(c0, Ctl(0, Connect(Some(a.src))), 1).inUse
            && After(After(c0, Ctl(0, Connect(Some(a.src))), 1), Arrive(a), 2).inUse
            && c3.inUse && c3.hand == Some(AsDgram(a, 8, 2)) && c3.state == Connected && !c3.parked
  {
  }

  lemma RebindSecondHalf(c: Conv, d: Dgram)
    requires c.inUse && !c.parked && c.hand == Some(d)
    ensures var c4 := After(c, Ctl(0, Hangup), 4);
            var c5 := After(c4, Ctl(0, Connect(Some(BCAST))), 5);
            c4.inUse && c5.hand == Some(d) && c5.state == Broadcast
  {
  }

  lemma FramedBoth(d: Dgram)
    requires d.data == [7]
    ensures Frame(Connected, d, 100) == Delivered([7])
    ensures Frame(Broadcast, d, 100) == Delivered(d.src + [7])
  {
  }

  lemma Booted(maxMsg: nat, wakes: bool)
    ensures Run(maxMsg, wakes, []).convs[0] == Idle(wakes)
  {
  }

  /** One more event, seen from slot 0 (which is free only before the first clone). */
  lemma SlotZero(maxMsg: nat, wakes: bool, log: seq<Event>, e: Event, log': seq<Event>, c: Conv) returns (c': Conv)
    requires log' == log + [e]
    requires Run(maxMsg, wakes, log).convs[0] == c
    ensures c' == ConvStep(c, 0, e, if c.inUse then 1 else 0, maxMsg, |log|)
    ensures Run(maxMsg, wakes, log').convs[0] == c'
  {
    hide ConvStep;
    RunOne(maxMsg, wakes, log, e);
    var free := FirstFree(Run(maxMsg, wakes, log).convs);
    c' := Run(maxMsg, wakes, log + [e]).convs[0];
    assert c' == ConvStep(c, 0, e, free, maxMsg, |log|);
    SameWhenNotFree(c, e, free, if c.inUse then 1 else 0, maxMsg, |log|);
  }

  lemma SameWhenNotFree(c: Conv, e: Event, f: nat, g: nat, maxMsg: nat, now: nat)
    requires (f == 0) == (g == 0)
    ensures ConvStep(c, 0, e, f, maxMsg, now) == ConvStep(c, 0, e, g, maxMsg, now)
  {
  }

  lemma RunOne(maxMsg: nat, wakes: bool, log: seq<Event>, e: Event)
    ensures Run(maxMsg, wakes, log + [e]) == Step(Run(maxMsg, wakes, log), e)
  {
    hide ConvStep;
    assert (log + [e])[..|log|] == log;
  }

  // ---- slots given out and given back ----

  /** The slot of the lowest number that is free. */
  predicate LowestFree(s: Service, i: nat)
    requires i < |s.convs|
  {
    !s.convs[i].inUse && forall j | 0 <= j < i :: s.convs[j].inUse
  }

  /** In every run a clone or an internal dial gives out the lowest free slot, with nothing in it and bound to
      nothing or to the peer dialled, and leaves every other slot alone; all of them when none is free. */
  lemma CloneGivesFreshSlot(maxMsg: nat, wakes: bool, log: seq<Event>, e: Event, i: nat)
    requires i < MAX_CONNS && (e.Clone? || e.Dial?)
    ensures var s := Run(maxMsg, wakes, log);
            var c, c' := s.convs[i], Run(maxMsg, wakes, log + [e]).convs[i];
            if LowestFree(s, i) then
              && c'.inUse && c'.rxq == [] && !c'.parked
              && (e.Clone? ==> c'.state == Unconnected && c'.peer == [0, 0, 0, 0, 0, 0])
              && (e.Dial? ==> c'.state == Connected && c'.peer == e.peer)
            else c' == c
  {
    var more := log + [e];
    assert more[..|log|] == log;
    SlotStep(maxMsg, wakes, more, i);
    hide Run;
    var s := Run(maxMsg, wakes, log);
    assert LowestFree(s, i) <==> FirstFree(s.convs) == i by {
      hide ConvStep, FirstFree;
      assert forall j | 0 <= j < FirstFree(s.convs) :: s.convs[j].inUse;
    }
    hide FirstFree;
  }

  /** In every run a clunk of a slot's ctl gives the slot back, and no other. */
  lemma ClunkGivesBack(maxMsg: nat, wakes: bool, log: seq<Event>, slot: nat, i: nat)
    requires i < MAX_CONNS
    ensures var c, c' := Run(maxMsg, wakes, log).convs[i], Run(maxMsg, wakes, log + [ClunkCtl(slot)]).convs[i];
            if i == slot then !c'.inUse && (c.inUse ==> c'.state == Unconnected) else c' == c
  {
    var more := log + [ClunkCtl(slot)];
    assert more[..|log|] == log;
    SlotStep(maxMsg, wakes, more, i);
    hide Run;
  }

  // ---- hang-up ----

  predicate Unbinds(e: Event, i: nat) { e == Ctl(i, Hangup) || e == ClunkCtl(i) }

  /** A reader's next get meets an EOF, or it has one already. */
  predicate EofFirst(c: Conv) {
    c.hand == Some(EOF) || (!c.parked && c.rxq != [] && c.rxq[0] == EOF)
  }

  /** An EOF is returned to the slot's reader, or the slot is handed to a new client. */
  predicate EofReturnedOrNewOwner(s: Service, i: nat, e: Event)
    requires i < |s.convs|
  {
    || (e == FinishRead(i) && s.convs[i].hand == Some(EOF))
    || ((e.Clone? || e.Dial?) && FirstFree(s.convs) == i)
  }

  /** From a hang-up (or ctl clunk) of a slot in use, whatever its reader is doing, through any events, until
      an EOF has been returned or the slot gets a new owner. */
  lemma {:induction false} EofFirstUntilRead(maxMsg: nat, wakes: bool, log: seq<Event>, i: nat, h: nat)
    requires i < MAX_CONNS && h < |log| && Unbinds(log[h], i)
    requires Run(maxMsg, wakes, log[..h]).convs[i].inUse
    requires forall u | h < u < |log| :: !EofReturnedOrNewOwner(Run(maxMsg, wakes, log[..u]), i, log[u])
    ensures EofFirst(Run(maxMsg, wakes, log).convs[i])
    ensures Run(maxMsg, wakes, log[..h]).convs[i].parked ==> Run(maxMsg, wakes, log).convs[i].hand == Some(EOF)
  {
    hide ConvStep, Run, EofFirst;
    var n := |log| - 1;
    var s := Run(maxMsg, wakes, log[..n]);
    ParkedIsIdle(maxMsg, wakes, log[..n], i);
    SlotStep(maxMsg, wakes, log, i);
    if n > h {
      assert forall u | h < u < n :: log[..n][..u] == log[..u];
      assert log[..n][..h] == log[..h];
      EofFirstUntilRead(maxMsg, wakes, log[..n], i, h);
      EofStaysFirst(s.convs[i], i, log[n], FirstFree(s.convs), maxMsg, n);
    } else {
      UnbindingPutsEof(s.convs[i], i, log[n], FirstFree(s.convs), maxMsg, n);
    }
  }

  lemma ParkedIsIdle(maxMsg: nat, wakes: bool, log: seq<Event>, i: nat)
    requires i < MAX_CONNS
    ensures var c := Run(maxMsg, wakes, log).convs[i]; c.parked ==> c.rxq == [] && c.hand.None?
  {
    hide Run;
    QueueGoodAt(maxMsg, wakes, log, i);
  }

  /** What the reader does next: finish what it holds, unless that is an EOF, and get. */
  function NextGet(c: Conv, i: nat): seq<Event> {
    if c.hand.Some? && c.hand != Some(EOF) then [FinishRead(i), BeginRead(i)] else [BeginRead(i)]
  }

  /** A reader parked at the hang-up holds a 0-byte read; any other, one still framing an earlier datagram
      included, gets one from its next get, before any newer datagram. */
  lemma HangupDelivers(maxMsg: nat, wakes: bool, log: seq<Event>, i: nat, h: nat)
    requires i < MAX_CONNS && h < |log| && Unbinds(log[h], i)
    requires Run(maxMsg, wakes, log[..h]).convs[i].inUse
    requires forall u | h < u < |log| :: !EofReturnedOrNewOwner(Run(maxMsg, wakes, log[..u]), i, log[u])
    ensures Run(maxMsg, wakes, log[..h]).convs[i].parked ==> Run(maxMsg, wakes, log).convs[i].hand == Some(EOF)
    ensures Run(maxMsg, wakes, log + NextGet(Run(maxMsg, wakes, log).convs[i], i)).convs[i].hand == Some(EOF)
    ensures forall s: ConvState, count: nat :: Frame(s, EOF, count) == Delivered([])
  {
    hide ConvStep, Run, EofFirst;
    EofFirstUntilRead(maxMsg, wakes, log, i, h);
    var c := Run(maxMsg, wakes, log).convs[i];
    if c.hand.Some? && c.hand != Some(EOF) {
      var done := log + [FinishRead(i)];
      SlotStep(maxMsg, wakes, done, i);
      assert done[..|log|] == log;
      FinishKeepsEof(c, i, FirstFree(Run(maxMsg, wakes, log).convs), maxMsg, |log|);
      GetAtEof(maxMsg, wakes, done, i);
      assert done + [BeginRead(i)] == log + [FinishRead(i), BeginRead(i)];
    } else {
      GetAtEof(maxMsg, wakes, log, i);
    }
  }

  lemma GetAtEof(maxMsg: nat, wakes: bool, log: seq<Event>, i: nat)
    requires i < MAX_CONNS && EofFirst(Run(maxMsg, wakes, log).convs[i])
    requires var hand := Run(maxMsg, wakes, log).convs[i].hand; hand.None? || hand == Some(EOF)
    ensures Run(maxMsg, wakes, log + [BeginRead(i)]).convs[i].hand == Some(EOF)
  {
    hide ConvStep, Run, EofFirst;
    var more := log + [BeginRead(i)];
    SlotStep(maxMsg, wakes, more, i);
    assert more[..|log|] == log;
    GetMeetsEof(Run(maxMsg, wakes, log).convs[i], i, FirstFree(Run(maxMsg, wakes, log).convs), maxMsg, |log|);
  }

  lemma UnbindingPutsEof(c: Conv, i: nat, e: Event, free: nat, maxMsg: nat, now: nat)
    requires Unbinds(e, i) && c.inUse && (c.parked ==> c.rxq == [])
    ensures EofFirst(ConvStep(c, i, e, free, maxMsg, now))
    ensures c.parked ==> ConvStep(c, i, e, free, maxMsg, now).hand == Some(EOF)
  {
  }

  lemma EofStaysFirst(c: Conv, i: nat, e: Event, free: nat, maxMsg: nat, now: nat)
    requires EofFirst(c) && (c.parked ==> c.hand.None?)
    requires !(e == FinishRead(i) && c.hand == Some(EOF)) && !((e.Clone? || e.Dial?) && i == free)
    ensures EofFirst(ConvStep(c, i, e, free, maxMsg, now))
    ensures c.hand == Some(EOF) ==> ConvStep(c, i, e, free, maxMsg, now).hand == Some(EOF)
  {
  }

  lemma FinishKeepsEof(c: Conv, i: nat, free: nat, maxMsg: nat, now: nat)
    requires EofFirst(c) && c.hand != Some(EOF)
    ensures var c' := ConvStep(c, i, FinishRead(i), free, maxMsg, now); EofFirst(c') && c'.hand.None?
  {
  }

  lemma GetMeetsEof(c: Conv, i: nat, free: nat, maxMsg: nat, now: nat)
    requires EofFirst(c) && (c.hand.None? || c.hand == Some(EOF))
    ensures ConvStep(c, i, BeginRead(i), free, maxMsg, now).hand == Some(EOF)
  {
  }

  /** One event adds at most one datagram to what the readers got: the head of the queue, or itself. */
  lemma GotStep(c: Conv, i: nat, e: Event, free: nat, maxMsg: nat, now: nat)
    ensures var got' := ConvStep(c, i, e, free, maxMsg, now).ledger.got;
            || got' == c.ledger.got
            || got' == c.ledger.got + [now]
            || (c.rxq != [] && c.rxq[0].stamp.Some? && got' == c.ledger.got + [c.rxq[0].stamp.value])
  {
    if c.rxq != [] {
      assert [c.rxq[0]][1..] == [];
      assert Stamps([c.rxq[0]]) == if c.rxq[0].stamp.Some? then [c.rxq[0].stamp.value] else [];
      assert c.ledger.got + [] == c.ledger.got;
    }
  }

  lemma {:induction false} GotGrows(maxMsg: nat, wakes: bool, log: seq<Event>, i: nat, u: nat)
    requires i < MAX_CONNS && u <= |log|
    ensures Run(maxMsg, wakes, log[..u]).convs[i].ledger.got <= Run(maxMsg, wakes, log).convs[i].ledger.got
  {
    if u == |log| {
      assert log[..u] == log;
    } else {
      hide ConvStep;
      var n := |log| - 1;
      var s := Run(maxMsg, wakes, log[..n]);
      GotGrows(maxMsg, wakes, log[..n], i, u);
      assert log[..n][..u] == log[..u];
      SlotStep(maxMsg, wakes, log, i);
      GotStep(s.convs[i], i, log[n], FirstFree(s.convs), maxMsg, n);
    }
  }

  /** No datagram queued before a hang-up is dequeued after it: whatever the slot's readers get from
      then on arrived later. */
  lemma {:induction false} HangupFences(maxMsg: nat, wakes: bool, log: seq<Event>, i: nat, h: nat)
    requires i < MAX_CONNS && h < |log| && Unbinds(log[h], i)
    requires Run(maxMsg, wakes, log[..h]).convs[i].inUse
    ensures forall d | d in Run(maxMsg, wakes, log).convs[i].rxq && d.stamp.Some? :: d.stamp.value > h
    ensures var before := Run(maxMsg, wakes, log[..h + 1]).convs[i].ledger.got;
            var now := Run(maxMsg, wakes, log).convs[i].ledger.got;
            before <= now && forall k | |before| <= k < |now| :: now[k] > h
  {
    hide ConvStep, Run, Unbinds;
    var n := |log| - 1;
    var s := Run(maxMsg, wakes, log[..n]);
    FenceQueue(maxMsg, wakes, log, i, h);
    if h == n {
      assert log[..h + 1] == log;
    } else {
      assert log[..n][..h] == log[..h] && log[..n][..h + 1] == log[..h + 1];
      HangupFences(maxMsg, wakes, log[..n], i, h);
      SlotStep(maxMsg, wakes, log, i);
      GotStep(s.convs[i], i, log[n], FirstFree(s.convs), maxMsg, n);
    }
  }

  lemma FenceQueue(maxMsg: nat, wakes: bool, log: seq<Event>, i: nat, h: nat)
    requires i < MAX_CONNS && h < |log| && Unbinds(log[h], i)
    requires Run(maxMsg, wakes, log[..h]).convs[i].inUse
    ensures forall d | d in Run(maxMsg, wakes, log).convs[i].rxq && d.stamp.Some? :: d.stamp.value > h
  {
    hide Run;
    var c := Run(maxMsg, wakes, log).convs[i];
    var c1 := Run(maxMsg, wakes, log[..h + 1]).convs[i];
    QueueGoodAt(maxMsg, wakes, log, i);
    SlotStep(maxMsg, wakes, log[..h + 1], i);
    assert log[..h + 1][..h] == log[..h];
    assert !c1.inUse || c1.state.Unconnected?;
    forall d | d in c.rxq && d.stamp.Some?
      ensures d.stamp.value > h
    {
      if d.stamp.value <= h {
        BindingHeldWhileQueued(maxMsg, wakes, log, i, d, h + 1);
        assert false;
      }
    }
  }

  /** What the slot's reader holds, or gets next. */
  predicate NextToRead(c: Conv, d: Dgram) {
    c.hand == Some(d) || (c.hand.None? && c.rxq != [] && d == c.rxq[0])
  }

  /** The sentinel is told apart by its length alone, so in every run a read ends the stream exactly when a
      sentinel or an empty datagram comes up. */
  lemma EofReadExactly(maxMsg: nat, wakes: bool, log: seq<Event>, i: nat, d: Dgram, count: nat)
    requires i < MAX_CONNS && maxMsg > 0 && NextToRead(Run(maxMsg, wakes, log).convs[i], d)
    ensures Frame(Run(maxMsg, wakes, log).convs[i].state, d, count) == Delivered([])
            <==> d == EOF || (d.stamp.Some? && d.stamp.value < |log| && log[d.stamp.value].Arrive?
                              && log[d.stamp.value].arrival.payload == [])
  {
    hide Run;
    if d != EOF {
      HandWasTaken(maxMsg, wakes, log, i);
      if Run(maxMsg, wakes, log).convs[i].rxq != [] {
        QueuedWasTaken(maxMsg, wakes, log, i);
      }
      assert TakenAs(maxMsg, wakes, log, i, d);
    }
  }

  /** A connected peer can end the stream by sending an empty datagram. */
  lemma EmptyDatagramReadsAsHangup(wakes: bool)
    ensures var a := Arrival([1, 1, 1, 1, 1, 1], [], false, Routes(map[], map[]));
            var c := Run(8, wakes, [Clone, Ctl(0, Connect(Some(a.src))), Arrive(a)]).convs[0];
            c.state == Connected && |c.rxq| == 1 && Frame(c.state, c.rxq[0], 100) == Delivered([])
  {
    var a := Arrival([1, 1, 1, 1, 1, 1], [], false, Routes(map[], map[]));
    hide Run;
    var e0, e1, e2 := Clone, Ctl(0, Connect(Some(a.src))), Arrive(a);
    Booted(8, wakes);
    var c0 := SlotZero(8, wakes, [], e0, [e0], Idle(wakes));
    var c1 := SlotZero(8, wakes, [e0], e1, [e0, e1], c0);
    var c2 := SlotZero(8, wakes, [e0, e1], e2, [e0, e1, e2], c1);
  }

  // ---- fan-out conservation and order ----

  /** Which arrivals are for a slot: broadcasts for the party line, any unicast for an announced one, and for a
      connected one unicasts whose raw source is its peer's route, or whose identity or raw source is its peer. */
  predicate IsFor(c: Conv, a: Arrival) {
    || (a.broadcast && c.state == Broadcast)
    || (!a.broadcast && c.state == Announced)
    || (!a.broadcast && c.state == Connected && c.peer in a.routes.addrOf && a.routes.addrOf[c.peer] == a.src)
    || (!a.broadcast && c.state == Connected && a.src in a.routes.euiOf && a.routes.euiOf[a.src] == c.peer)
    || (!a.broadcast && c.state == Connected && a.src == c.peer)
  }

  lemma TakesWhatIsFor(c: Conv, a: Arrival)
    ensures Takes(c, a) <==> IsFor(c, a)
  {
  }

  /** The slot's ledger lists exactly the arrivals that found it in use and were for it. */
  lemma {:induction false} MatchedExactly(maxMsg: nat, wakes: bool, log: seq<Event>, i: nat, t: nat)
    requires i < MAX_CONNS
    ensures t in Run(maxMsg, wakes, log).convs[i].ledger.matched
            <==> t < |log| && log[t].Arrive?
                 && var c := Run(maxMsg, wakes, log[..t]).convs[i]; c.inUse && IsFor(c, log[t].arrival)
  {
    if log == [] {
      assert Run(maxMsg, wakes, log).convs[i] == Idle(wakes);
    } else {
      hide ConvStep, IsFor;
      var n := |log| - 1;
      var s := Run(maxMsg, wakes, log[..n]);
      MatchedExactly(maxMsg, wakes, log[..n], i, t);
      assert t <= n ==> log[..n][..t] == log[..t];
      SlotStep(maxMsg, wakes, log, i);
      MatchedStep(s.convs[i], i, log[n], FirstFree(s.convs), maxMsg, n);
      if log[n].Arrive? {
        TakesWhatIsFor(s.convs[i], log[n].arrival);
      }
    }
  }

  /** Delivery, in every run: an arrival for a slot in use goes straight to the reader parked there, else behind
      the fewer than 16 that wait, else it is dropped and counted; it carries its source's identity, when the mesh
      knows one for a unicast, and its payload as far as the maximum message goes. It does nothing to any other
      slot. */
  lemma ArrivalIsDelivered(maxMsg: nat, wakes: bool, log: seq<Event>, a: Arrival, i: nat)
    requires i < MAX_CONNS
    ensures var c := Run(maxMsg, wakes, log).convs[i];
            var c' := Run(maxMsg, wakes, log + [Arrive(a)]).convs[i];
            var src := if !a.broadcast && a.src in a.routes.euiOf then a.routes.euiOf[a.src] else a.src;
            var d := Dgram(src, a.payload[..if |a.payload| < maxMsg then |a.payload| else maxMsg], Some(|log|));
            if !c.inUse || !IsFor(c, a) then c' == c
            else if c.parked then c'.hand == Some(d) && !c'.parked && c'.rxq == c.rxq == []
            else if |c.rxq| < 16 then c'.rxq == c.rxq + [d] && c'.hand == c.hand
            else c'.rxq == c.rxq && c'.hand == c.hand && |log| in c'.ledger.dropped
  {
    hide Run, ConvStep, QueueGood, LedgerGood;
    var more := log + [Arrive(a)];
    assert more[..|log|] == log;
    ParkedIsIdle(maxMsg, wakes, log, i);
    SlotStep(maxMsg, wakes, more, i);
    var s := Run(maxMsg, wakes, log);
    ReceiveDelivers(s.convs[i], i, FirstFree(s.convs), a, maxMsg, |log|);
  }

  lemma ReceiveDelivers(c: Conv, i: nat, free: nat, a: Arrival, maxMsg: nat, now: nat)
    requires c.parked ==> c.rxq == []
    ensures var c' := ConvStep(c, i, Arrive(a), free, maxMsg, now);
            var src := if !a.broadcast && a.src in a.routes.euiOf then a.routes.euiOf[a.src] else a.src;
            var d := Dgram(src, a.payload[..if |a.payload| < maxMsg then |a.payload| else maxMsg], Some(now));
            if !c.inUse || !IsFor(c, a) then c' == c
            else if c.parked then c'.hand == Some(d) && !c'.parked && c'.rxq == c.rxq == []
            else if |c.rxq| < 16 then c'.rxq == c.rxq + [d] && c'.hand == c.hand
            else c'.rxq == c.rxq && c'.hand == c.hand && now in c'.ledger.dropped
  {
    TakesWhatIsFor(c, a);
    assert a.payload[..|a.payload|] == a.payload;
    hide Takes, IsFor;
  }

  lemma MatchedStep(c: Conv, i: nat, e: Event, free: nat, maxMsg: nat, now: nat)
    ensures var c' := ConvStep(c, i, e, free, maxMsg, now);
            && c'.ledger.matched == (if e.Arrive? && c.inUse && Takes(c, e.arrival) then c.ledger.matched + {now}
                                     else c.ledger.matched)
            && c'.ledger.dropped == (if e.Arrive? && Drops(c, e.arrival) then c.ledger.dropped + {now}
                                     else c.ledger.dropped)
  {
    hide Takes, AsDgram, Stamps, Elements;
  }

  function TotalDropped(convs: seq<Conv>): nat {
    if convs == [] then 0 else TotalDropped(convs[..|convs| - 1]) + |convs[|convs| - 1].ledger.dropped|
  }

  lemma {:induction false} DropsAddUp(before: seq<Conv>, after: seq<Conv>, a: Arrival, now: nat)
    requires |after| == |before|
    requires forall j | 0 <= j < |before| :: now !in before[j].ledger.dropped
               && after[j].ledger.dropped == before[j].ledger.dropped + if Drops(before[j], a) then {now} else {}
    ensures TotalDropped(after) == TotalDropped(before) + DropCount(before, a)
  {
    hide Drops;
    if before != [] {
      var n := |before| - 1;
      DropsAddUp(before[..n], after[..n], a, now);
    }
  }

  lemma {:induction false} SameDropsSameTotal(before: seq<Conv>, after: seq<Conv>)
    requires |after| == |before|
    requires forall j | 0 <= j < |before| :: after[j].ledger.dropped == before[j].ledger.dropped
    ensures TotalDropped(after) == TotalDropped(before)
  {
    if before != [] {
      var n := |before| - 1;
      SameDropsSameTotal(before[..n], after[..n]);
    }
  }

  /** Every (datagram, matching conversation) pair is accounted for once: dropped, purged by an
      unbinding, handed to a reader, or still queued; and what readers got, then what waits, is in
      order of arrival, without repetition, at most 16 waiting. */
  lemma FanOutConserves(maxMsg: nat, wakes: bool, log: seq<Event>, i: nat)
    requires i < MAX_CONNS
    ensures var c := Run(maxMsg, wakes, log).convs[i];
            var queued := Elements(Stamps(c.rxq));
            && c.ledger.matched == c.ledger.dropped + c.ledger.purged + Elements(c.ledger.got) + queued
            && c.ledger.dropped !! c.ledger.purged !! Elements(c.ledger.got) !! queued
            && Ascending(c.ledger.got + Stamps(c.rxq)) && |c.rxq| <= 16
  {
    hide Run;
    QueueGoodAt(maxMsg, wakes, log, i);
  }

  /** The one shared drop counter, 32 bits wide, adds up the drops of the four slots. */
  lemma {:induction false} DropCounterAddsUp(maxMsg: nat, wakes: bool, log: seq<Event>)
    ensures Run(maxMsg, wakes, log).rxDrop == TotalDropped(Run(maxMsg, wakes, log).convs) % WRAP32
  {
    hide *;
    if log == [] {
      BootDropsNothing(maxMsg, wakes);
    } else {
      RxDropStep(maxMsg, wakes, log);
      var n := |log| - 1;
      var s, s' := Run(maxMsg, wakes, log[..n]), Run(maxMsg, wakes, log);
      DropCounterAddsUp(maxMsg, wakes, log[..n]);
      forall i | 0 <= i < MAX_CONNS
        ensures n !in s.convs[i].ledger.dropped
        ensures s'.convs[i].ledger.dropped
             == s.convs[i].ledger.dropped + if log[n].Arrive? && Drops(s.convs[i], log[n].arrival) then {n} else {}
      {
        SlotDrops(maxMsg, wakes, log, i);
      }
      if log[n].Arrive? {
        DropsAddUp(s.convs, s'.convs, log[n].arrival, n);
        AddWrapped(TotalDropped(s.convs), DropCount(s.convs, log[n].arrival));
      } else {
        SameDropsSameTotal(s.convs, s'.convs);
      }
    }
  }

  lemma AddWrapped(x: nat, d: nat)
    ensures (x % WRAP32 + d) % WRAP32 == (x + d) % WRAP32
  {
    assert x == WRAP32 * (x / WRAP32) + x % WRAP32;
    var k := (x % WRAP32 + d) / WRAP32;
    assert x + d == WRAP32 * (x / WRAP32 + k) + (x % WRAP32 + d) % WRAP32;
  }

  lemma BootDropsNothing(maxMsg: nat, wakes: bool)
    ensures Run(maxMsg, wakes, []).rxDrop == TotalDropped(Run(maxMsg, wakes, []).convs) % WRAP32
  {
    NothingDropped(Run(maxMsg, wakes, []).convs);
  }

  lemma RxDropStep(maxMsg: nat, wakes: bool, log: seq<Event>)
    requires log != []
    ensures var n := |log| - 1;
            var s := Run(maxMsg, wakes, log[..n]);
            Run(maxMsg, wakes, log).rxDrop
            == if log[n].Arrive? then (s.rxDrop + DropCount(s.convs, log[n].arrival)) % WRAP32 else s.rxDrop
  {
    hide Step, ConvStep, DropCount;
    StepDrops(Run(maxMsg, wakes, log[..|log| - 1]), log[|log| - 1]);
  }

  lemma StepDrops(s: Service, e: Event)
    ensures Step(s, e).rxDrop
         == if e.Arrive? then (s.rxDrop + DropCount(s.convs, e.arrival)) % WRAP32 else s.rxDrop
  {
    hide ConvStep, DropCount;
  }

  lemma SlotDrops(maxMsg: nat, wakes: bool, log: seq<Event>, i: nat)
    requires i < MAX_CONNS && log != []
    ensures var n := |log| - 1;
            var c, c' := Run(maxMsg, wakes, log[..n]).convs[i], Run(maxMsg, wakes, log).convs[i];
            && n !in c.ledger.dropped
            && c'.ledger.dropped
               == c.ledger.dropped + if log[n].Arrive? && Drops(c, log[n].arrival) then {n} else {}
  {
    hide Run, ConvStep;
    var n := |log| - 1;
    var s := Run(maxMsg, wakes, log[..n]);
    QueueGoodAt(maxMsg, wakes, log[..n], i);
    SlotStep(maxMsg, wakes, log, i);
    MatchedStep(s.convs[i], i, log[n], FirstFree(s.convs), maxMsg, n);
  }

  lemma {:induction false} NothingDropped(convs: seq<Conv>)
    requires forall j | 0 <= j < |convs| :: convs[j].ledger.dropped == {}
    ensures TotalDropped(convs) == 0
  {
    if convs != [] {
      NothingDropped(convs[..|convs| - 1]);
    }
  }
}
