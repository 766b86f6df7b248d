/** The mesh 9P server's request ring (dect_mesh/src/aether_9p_mesh.c): the receive thread's ACK gate and
    callback as producer, the work-queue drain as consumer, interleaved between any two accesses to
    what they share. */
module RequestRing {
  import opened Wire

  const RING := 8

  datatype Request = Request(buf: Bytes, peer: Bytes)

  /** The receive thread: let through by the gate, slot taken, slot written, counted. */
  datatype Producer = Waiting | Gated(m: Request) | Claimed(m: Request) | Filled | Counted

  /** The drain: not running, testing the count, serving, served, head moved, about to return. */
  datatype Consumer = Asleep | Testing | Serving | Served | Advanced | Returning

  /** `slots` holds None where a buffer is being (or has never been) written. `pending`: the work item is
      queued. `admitted`, `served` and `dropped` record the requests in the order things happened to them. */
  datatype State = State(slots: seq<Option<Request>>, head: nat, tail: nat, count: nat, pending: bool,
                         producer: Producer, consumer: Consumer,
                         admitted: seq<Request>, served: seq<Request>, dropped: seq<Request>)

  datatype Step =
    | Gate(m: Request)   // mesh9p_ack_gate on a 9P request: refused unless there is room
    | Discard            // the mesh drops the gated datagram as a duplicate before the callback
    | Claim              // the callback's locked section
    | Fill               // the copy into the claimed slot
    | Count              // atomic_inc
    | Submit             // k_work_submit_to_queue
    | Wake               // the queue starts the drain
    | Test               // the loop test
    | Serve              // recv_cb on the slot at the head
    | Advance            // head moves on, under the lock
    | Uncount            // atomic_dec
    | Sleep              // the drain returns

  predicate Enabled(s: State, step: Step) {
    match step
    case Gate(_) => s.producer.Waiting?
    case Discard => s.producer.Gated?
    case Claim => s.producer.Gated?
    case Fill => s.producer.Claimed?
    case Count => s.producer.Filled?
    case Submit => s.producer.Counted?
    case Wake => s.pending && s.consumer.Asleep?
    case Test => s.consumer.Testing?
    case Serve => s.consumer.Serving?
    case Advance => s.consumer.Served?
    case Uncount => s.consumer.Advanced?
    case Sleep => s.consumer.Returning?
  }

  predicate InBounds(s: State) { |s.slots| == RING && s.head < RING && s.tail < RING }

  function Before(i: nat): nat
    requires i < RING
  {
    (i + RING - 1) % RING
  }

  function Next(s: State, step: Step): (s': State)
    requires Enabled(s, step) && InBounds(s)
    ensures InBounds(s')
  {
    match step
    case Gate(m) => if s.count < RING then s.(producer := Gated(m)) else s
    case Discard => s.(producer := Waiting)
    case Claim =>
      if s.count >= RING then s.(producer := Waiting, dropped := s.dropped + [s.producer.m])
      else s.(producer := Claimed(s.producer.m), tail := (s.tail + 1) % RING,
              slots := s.slots[s.tail := None], admitted := s.admitted + [s.producer.m])
    case Fill => s.(producer := Filled, slots := s.slots[Before(s.tail) := Some(s.producer.m)])
    case Count => s.(producer := Counted, count := s.count + 1)
    case Submit => s.(producer := Waiting, pending := true)
    case Wake => s.(pending := false, consumer := Testing)
    case Test => s.(consumer := if s.count > 0 then Serving else Returning)
    case Serve =>
      s.(consumer := Served,
         served := s.served + if s.slots[s.head].Some? then [s.slots[s.head].value] else [])
    case Advance => s.(consumer := Advanced, head := (s.head + 1) % RING)
    case Uncount => s.(consumer := Testing, count := if s.count > 0 then s.count - 1 else 0)
    case Sleep => s.(consumer := Asleep)
  }

  const START := State([None, None, None, None, None, None, None, None], 0, 0, 0, false, Waiting, Asleep, [], [], [])

  function Exec(steps: seq<Step>): (s: State)
    ensures InBounds(s)
  {
    if steps == [] then START else
    var s, step := Exec(steps[..|steps| - 1]), steps[|steps| - 1];
    if Enabled(s, step) then Next(s, step) else s
  }

  // ---- the invariant ----

  /** Claimed and not yet counted; served and not yet uncounted. */
  function Uncounted(s: State): nat { if s.producer.Claimed? || s.producer.Filled? then 1 else 0 }
  function Overcounted(s: State): nat { if s.consumer.Served? || s.consumer.Advanced? then 1 else 0 }

  function BeingWritten(s: State): nat { if s.producer.Claimed? then 1 else 0 }

  /** Where the k-th admitted request is kept. */
  function SlotOf(k: nat): (i: nat)
    ensures i < RING
  {
    k % RING
  }

  /** The served requests are the first of the admitted ones; the rest sit in their slots, in order, the
      newest perhaps still being written. */
  predicate Queued(s: State) {
    && s.served <= s.admitted
    && |s.slots| == RING
    && forall k: nat | |s.served| <= k < |s.admitted| - BeingWritten(s) :: s.slots[SlotOf(k)] == Some(s.admitted[k])
  }

  predicate Counts(s: State) {
    && |s.admitted| + Overcounted(s) == |s.served| + s.count + Uncounted(s)
    && s.count + Uncounted(s) <= RING
    && s.tail == SlotOf(|s.admitted|)
    && s.head == SlotOf(if s.consumer.Served? && s.served != [] then |s.served| - 1 else |s.served|)
  }

  predicate Inv(s: State) {
    && InBounds(s) && Queued(s) && Counts(s)
    && (s.producer.Claimed? ==> s.admitted != [] && s.admitted[|s.admitted| - 1] == s.producer.m)
    && (s.producer.Gated? ==> s.count < RING)
    && s.dropped == []
    // a slot is being served: it is full and is not the one being written
    && (s.consumer.Serving? || Overcounted(s) == 1 ==> s.count > 0)
    && (s.consumer.Served? ==> s.served != [])
    // nothing is stranded
    && (s.count > 0 ==> s.pending || s.producer.Counted? || (!s.consumer.Asleep? && !s.consumer.Returning?))
  }

  lemma SlotsApart(j: nat, k: nat)
    requires j < k < j + RING
    ensures SlotOf(j) != SlotOf(k)
  {
  }

  lemma StepMod(k: nat)
    ensures (SlotOf(k) + 1) % RING == SlotOf(k + 1)
    ensures Before(SlotOf(k + 1)) == SlotOf(k)
  {
  }

  lemma ClaimKeeps(s: State)
    requires Inv(s) && s.producer.Gated?
    ensures Inv(Next(s, Claim))
  {
    var n := |s.admitted|;
    StepMod(n);
    forall k: nat | |s.served| <= k < n
      ensures SlotOf(k) != s.tail
    {
      SlotsApart(k, n);
    }
  }

  lemma FillKeeps(s: State)
    requires Inv(s) && s.producer.Claimed?
    ensures Inv(Next(s, Fill))
  {
    var n := |s.admitted|;
    StepMod(n - 1);
    forall k: nat | |s.served| <= k < n - 1
      ensures SlotOf(k) != Before(s.tail)
    {
      SlotsApart(k, n - 1);
    }
  }

  lemma CountingKeeps(s: State, step: Step)
    requires Inv(s) && Enabled(s, step)
    requires step.Gate? || step.Discard? || step.Count? || step.Submit?
    ensures Inv(Next(s, step))
  {
  }

  lemma ConsumerKeeps(s: State, step: Step)
    requires Inv(s) && Enabled(s, step)
    requires step.Wake? || step.Test? || step.Serve? || step.Advance? || step.Uncount? || step.Sleep?
    ensures Inv(Next(s, step))
  {
    hide SlotOf;
    if step.Serve? {
      var k := |s.served|;
      assert s.slots[SlotOf(k)] == Some(s.admitted[k]);
      assert s.admitted[..k + 1] == s.served + [s.admitted[k]];
    } else if step.Advance? {
      StepMod(|s.served| - 1);
    }
  }

  /** Every interleaving keeps the invariant. */
  lemma {:induction false} ExecKeeps(steps: seq<Step>)
    ensures Inv(Exec(steps))
  {
    if steps != [] {
      hide Inv, Next;
      var s, step := Exec(steps[..|steps| - 1]), steps[|steps| - 1];
      ExecKeeps(steps[..|steps| - 1]);
      if Enabled(s, step) {
        if step.Claim? {
          ClaimKeeps(s);
        } else if step.Fill? {
          FillKeeps(s);
        } else if step.Gate? || step.Discard? || step.Count? || step.Submit? {
          CountingKeeps(s, step);
        } else {
          ConsumerKeeps(s, step);
        }
      }
    }
  }

  /** In every interleaving: what the gate let through is never dropped, at most eight requests are held,
      requests are served once each in the order they were admitted, from slots nobody is writing, and
      when both sides are at rest everything admitted has been served. */
  lemma RingTheorem(steps: seq<Step>)
    ensures var s := Exec(steps);
            && s.dropped == []
            && |s.admitted| - |s.served| <= 8 && s.count <= 8
            && s.served <= s.admitted
            && (s.consumer.Serving? ==>
                  && |s.served| < |s.admitted| && s.slots[s.head] == Some(s.admitted[|s.served|])
                  && (s.producer.Claimed? ==> s.head != Before(s.tail)))
            && (s.count > 0 ==> s.pending || s.producer.Counted? || (!s.consumer.Asleep? && !s.consumer.Returning?))
            && (s.producer.Waiting? && s.consumer.Asleep? && !s.pending ==> s.served == s.admitted)
  {
    var s := Exec(steps);
    ExecKeeps(steps);
    if s.consumer.Serving? && s.producer.Claimed? {
      StepMod(|s.admitted| - 1);
      SlotsApart(|s.served|, |s.admitted| - 1);
    }
  }

  /** The requests admitted and not yet served. */
  function Pending(s: State): seq<Request> {
    if |s.served| <= |s.admitted| then s.admitted[|s.served|..] else []
  }

  /** Seen from outside the ring is a bounded FIFO: a claim appends to at most seven, serving takes the
      oldest, and no other step shows. This is all MeshPeer takes the ring for. */
  lemma PendingIsFifo(steps: seq<Step>, step: Step)
    requires Enabled(Exec(steps), step)
    ensures var s, s' := Exec(steps), Exec(steps + [step]);
            if step.Claim? then |Pending(s)| < 8 && Pending(s') == Pending(s) + [s.producer.m]
            else if step.Serve? then Pending(s) != [] && Pending(s') == Pending(s)[1..]
            else Pending(s') == Pending(s)
  {
    hide Next;
    var s := Exec(steps);
    assert (steps + [step])[..|steps|] == steps;
    ExecKeeps(steps);
    PendingStep(s, step);
  }

  lemma PendingStep(s: State, step: Step)
    requires Inv(s) && Enabled(s, step)
    ensures var s' := Next(s, step);
            if step.Claim? then |Pending(s)| < 8 && Pending(s') == Pending(s) + [s.producer.m]
            else if step.Serve? then Pending(s) != [] && Pending(s') == Pending(s)[1..]
            else Pending(s') == Pending(s)
  {
    hide SlotOf, Before;
    if step.Serve? {
      ServeTakesOldest(s);
    } else if step.Claim? {
      assert (s.admitted + [s.producer.m])[|s.served|..] == s.admitted[|s.served|..] + [s.producer.m];
    }
  }

  lemma ServeTakesOldest(s: State)
    requires Inv(s) && s.consumer.Serving?
    ensures |s.served| < |s.admitted| && Next(s, Serve).served == s.served + [s.admitted[|s.served|]]
    ensures Next(s, Serve).admitted == s.admitted
  {
    hide SlotOf;
    var k := |s.served|;
    assert s.slots[SlotOf(k)] == Some(s.admitted[k]);
  }

  /** The callback's own fullness test never fires. */
  lemma GatedHasRoom(steps: seq<Step>)
    ensures Exec(steps).producer.Gated? ==> Exec(steps).count < RING
  {
    ExecKeeps(steps);
  }

  // ---- the ring in memory, one method per step between preemption points ----

  class Ring {
    const ring: array<Option<Request>>
    var head: nat
    var tail: nat
    var count: nat
    var pending: bool
    var mine: nat                // the slot the callback claimed
    var producer: Producer
    var consumer: Consumer
    ghost var steps: seq<Step>

    /** The memory is the state the steps so far lead to. */
    ghost predicate Valid()
      reads this, ring
    {
      var s := Exec(steps);
      && ring[..] == s.slots && head == s.head && tail == s.tail && count == s.count
      && pending == s.pending && producer == s.producer && consumer == s.consumer
      && (s.producer.Claimed? ==> mine == Before(s.tail))
    }

    constructor ()
      ensures Valid() && steps == []
    {
      ring := new Option<Request>[RING](_ => None);
      head, tail, count, pending, mine := 0, 0, 0, false, 0;
      producer, consumer := Waiting, Asleep;
      steps := [];
    }

    /** mesh9p_ack_gate for a framed request. */
    method AckGate(m: Request) returns (accept: bool)
      requires Valid() && producer.Waiting?
      modifies this
      ensures Valid() && steps == old(steps) + [Gate(m)]
      ensures accept == (old(count) < 8) == producer.Gated?
    {
      accept := count < RING;
      if accept {
        producer := Gated(m);
      }
      Extend(Gate(m));
    }

    /** Duplicate suppression, between the gate and the callback. */
    method DropDuplicate()
      requires Valid() && producer.Gated?
      modifies this
      ensures Valid() && steps == old(steps) + [Discard]
    {
      producer := Waiting;
      Extend(Discard);
    }

    /** The locked section of mesh9p_recv_cb: it finds room after every gated arrival. */
    method ClaimSlot() returns (dropped: bool)
      requires Valid() && producer.Gated?
      modifies this, ring
      ensures Valid() && steps == old(steps) + [Claim]
      ensures !dropped && producer == Claimed(old(producer.m))
    {
      dropped := count >= RING;
      if dropped {
        producer := Waiting;
      } else {
        mine := tail;
        tail := (tail + 1) % RING;
        ring[mine] := None;
        producer := Claimed(producer.m);
      }
      Extend(Claim);
      GatedHasRoom(old(steps));
    }

    method FillSlot()
      requires Valid() && producer.Claimed?
      modifies this, ring
      ensures Valid() && steps == old(steps) + [Fill]
    {
      ring[mine] := Some(producer.m);
      producer := Filled;
      Extend(Fill);
    }

    method CountSlot()
      requires Valid() && producer.Filled?
      modifies this
      ensures Valid() && steps == old(steps) + [Count]
    {
      count := count + 1;
      producer := Counted;
      Extend(Count);
    }

    method SubmitWork()
      requires Valid() && producer.Counted?
      modifies this
      ensures Valid() && steps == old(steps) + [Submit]
    {
      pending := true;
      producer := Waiting;
      Extend(Submit);
    }

    method WakeWork()
      requires Valid() && pending && consumer.Asleep?
      modifies this
      ensures Valid() && steps == old(steps) + [Wake]
    {
      pending := false;
      consumer := Testing;
      Extend(Wake);
    }

    method TestLoop()
      requires Valid() && consumer.Testing?
      modifies this
      ensures Valid() && steps == old(steps) + [Test]
    {
      consumer := if count > 0 then Serving else Returning;
      Extend(Test);
    }

    /** The request handed to the 9P server is the oldest one not yet served. */
    method ServeHead() returns (m: Request)
      requires Valid() && consumer.Serving?
      modifies this
      ensures Valid() && steps == old(steps) + [Serve]
      ensures Exec(steps).served == old(Exec(steps).served) + [m]
      ensures var before := old(Exec(steps));
              |before.served| < |before.admitted| && m == before.admitted[|before.served|]
    {
      RingTheorem(steps);
      m := ring[head].value;
      consumer := Served;
      Extend(Serve);
    }

    method AdvanceHead()
      requires Valid() && consumer.Served?
      modifies this
      ensures Valid() && steps == old(steps) + [Advance]
    {
      head := (head + 1) % RING;
      consumer := Advanced;
      Extend(Advance);
    }

    method UncountSlot()
      requires Valid() && consumer.Advanced?
      modifies this
      ensures Valid() && steps == old(steps) + [Uncount]
    {
      ExecKeeps(steps);
      count := count - 1;
      consumer := Testing;
      Extend(Uncount);
    }

    method ReturnFromWork()
      requires Valid() && consumer.Returning?
      modifies this
      ensures Valid() && steps == old(steps) + [Sleep]
    {
      consumer := Asleep;
      Extend(Sleep);
    }

    ghost method Extend(step: Step)
      requires Enabled(Exec(steps), step)
      modifies this`steps
      ensures steps == old(steps) + [step] && Exec(steps) == Next(old(Exec(steps)), step)
    {
      assert (steps + [step])[..|steps|] == steps;
      steps := steps + [step];
    }
  }
}
