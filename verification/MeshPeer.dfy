/** The receiving end of a firmware push and the air in front of it: the peer's 9P session and offset-
    idempotent flash writer, its request ring, and every request the gateway ever put on the air, any of
    which may land again later (dect_mesh/src/aether_9p_mesh.c, doc/OTA.md). */
module MeshPeer {
  import opened Wire
  import RequestRing

  /** The largest data part of one mesh Twrite. */
  const TILE := 384

  /** "firmware", opened for writing */
  const FIRMWARE: Bytes := [102, 105, 114, 109, 119, 97, 114, 101]
  const OWRITE: byte := 1

  /** `stage`: how far the session has got towards dev/firmware open for writing as fid 2. `slot`: the bytes
      written; it outlives sessions. `gap`: a write began beyond them. `committed`: what the slot held when
      it was finalized. */
  datatype Peer = Peer(stage: nat, slot: Bytes, gap: bool, committed: Option<Bytes>)

  /** A peer as a push finds it: whatever an earlier one left in the slot. */
  predicate Initial(p: Peer) { p.stage <= 4 && !p.gap && p.committed.None? }

  const IDLE := Peer(0, [], false, None)

  /** The flash writer skips what it already has. */
  function Store(slot: Bytes, off: nat, data: Bytes): Bytes
    requires off <= |slot|
  {
    if off + |data| <= |slot| then slot else slot + data[|slot| - off..]
  }

  /** A new session clunks the open file without finalizing it; only a clunk of its own does. */
  function Serve(p: Peer, m: TMsg): Peer {
    var q := p.(stage := Advance(p.stage, m, FIRMWARE, OWRITE));
    match m
    case Twrite(_, fid, off, data) =>
      if p.stage != 4 || fid != 2 then p
      else if off > |p.slot| then p.(gap := true)
      else p.(slot := Store(p.slot, off, data))
    case Tclunk(_, fid) => if p.stage == 4 && fid == 2 then q.(committed := Some(p.slot)) else q
    case _ => q
  }

  /** The peer once it has served the requests waiting in its ring. */
  function Settle(p: Peer, ring: seq<TMsg>): Peer
    decreases |ring|
  {
    if ring == [] then p else Settle(Serve(p, ring[0]), ring[1..])
  }

  /** What the slot becomes when all of a file is written over what it held. */
  function Over(slot: Bytes, file: Bytes): Bytes {
    if |slot| <= |file| then slot + file[|slot|..] else slot
  }

  /** That is the file if and only if the slot held a beginning of it. */
  lemma OverIsFile(slot: Bytes, file: Bytes)
    ensures slot <= Over(slot, file) && |Over(slot, file)| >= |file|
    ensures Over(slot, file) == file <==> slot <= file
  {
  }

  /** `goal` is what the slot is to become. */
  predicate PeerOk(p: Peer, goal: Bytes) {
    p.stage <= 4 && p.slot <= goal && !p.gap && (p.committed.Some? ==> p.committed.value == goal)
  }

  /** A request a peer in this state can take: a write that begins no later than where its slot ends and
      leaves it a beginning of the goal, or the clunk once the slot is the goal. */
  predicate MsgOk(p: Peer, m: TMsg, goal: Bytes) {
    match m
    case Twrite(_, _, off, data) => off <= |p.slot| && |data| <= TILE && Store(p.slot, off, data) <= goal
    case Tclunk(_, _) => p.slot == goal
    case _ => true
  }

  predicate RingOk(p: Peer, ring: seq<TMsg>, goal: Bytes)
    decreases |ring|
  {
    ring == [] || (MsgOk(p, ring[0], goal) && RingOk(Serve(p, ring[0]), ring[1..], goal))
  }

  lemma StoreGrows(slot: Bytes, off: nat, data: Bytes)
    requires off <= |slot|
    ensures var s := Store(slot, off, data);
            slot <= s && |s| == if off + |data| > |slot| then off + |data| else |slot|
  {
  }

  /** Every stretch of the file is a write that works towards the goal. */
  lemma PieceFits(base: Bytes, file: Bytes, slot: Bytes, off: nat, data: Bytes)
    requires base <= slot <= Over(base, file) && off <= |slot|
    requires off + |data| <= |file| && data == file[off..off + |data|]
    ensures Store(slot, off, data) <= Over(base, file)
  {
    var goal, s := Over(base, file), Store(slot, off, data);
    if off + |data| > |slot| {
      forall k | |slot| <= k < off + |data|
        ensures s[k] == goal[k]
      {
        assert s[k] == data[k - off] == file[k] == goal[k];
      }
    }
  }

  lemma ServeKeeps(p: Peer, m: TMsg, goal: Bytes)
    requires PeerOk(p, goal) && MsgOk(p, m, goal)
    ensures var p' := Serve(p, m);
            && PeerOk(p', goal) && p.slot <= p'.slot && |p'.slot| <= |p.slot| + TILE
            && (!m.Tversion? && !m.Tclunk? ==> p.stage <= p'.stage)
            && (m.Twrite? && m.fid == 2 && p.stage == 4 ==> m.offset + |m.data| <= |p'.slot|)
  {
    if m.Twrite? {
      StoreGrows(p.slot, m.offset, m.data);
      hide Store;
    }
  }

  lemma {:induction false} SettleSnoc(p: Peer, ring: seq<TMsg>, m: TMsg)
    ensures Settle(p, ring + [m]) == Serve(Settle(p, ring), m)
    decreases |ring|
  {
    hide Serve;
    if ring == [] {
      assert ([] + [m])[1..] == [];
    } else {
      assert (ring + [m])[1..] == ring[1..] + [m];
      SettleSnoc(Serve(p, ring[0]), ring[1..], m);
    }
  }

  lemma {:induction false} RingOkSnoc(p: Peer, ring: seq<TMsg>, m: TMsg, goal: Bytes)
    requires RingOk(p, ring, goal) && MsgOk(Settle(p, ring), m, goal)
    ensures RingOk(p, ring + [m], goal)
    decreases |ring|
  {
    hide Serve, MsgOk;
    if ring == [] {
      assert ([] + [m])[1..] == [];
    } else {
      assert (ring + [m])[1..] == ring[1..] + [m];
      RingOkSnoc(Serve(p, ring[0]), ring[1..], m, goal);
    }
  }

  /** Serving the ring keeps the slot a growing beginning of the goal, by at most one tile a request. */
  lemma {:induction false} SettleKeeps(p: Peer, ring: seq<TMsg>, goal: Bytes)
    requires PeerOk(p, goal) && RingOk(p, ring, goal)
    ensures var q := Settle(p, ring);
            PeerOk(q, goal) && p.slot <= q.slot && |q.slot| <= |p.slot| + TILE * |ring|
    decreases |ring|
  {
    hide Serve, PeerOk, MsgOk;
    if ring != [] {
      ServeKeeps(p, ring[0], goal);
      SettleKeeps(Serve(p, ring[0]), ring[1..], goal);
    }
  }

  // ---- the air ----

  /** `sent`: every request the gateway has transmitted, on the air forever. */
  datatype Air = Air(peer: Peer, ring: seq<TMsg>, sent: set<TMsg>)

  function Quiet(start: Peer): Air { Air(start, [], {}) }

  datatype Step =
    | Transmit(m: TMsg)   // the gateway puts a request on the air
    | Land(m: TMsg)       // it arrives, perhaps again; the gate admits it only when the ring has room
    | Process             // the peer serves the oldest request

  predicate Enabled(a: Air, step: Step) {
    match step
    case Transmit(_) => true
    case Land(m) => m in a.sent && |a.ring| < RequestRing.RING
    case Process => a.ring != []
  }

  function Next(a: Air, step: Step): Air
    requires Enabled(a, step)
  {
    match step
    case Transmit(m) => a.(sent := a.sent + {m})
    case Land(m) => a.(ring := a.ring + [m])
    case Process => a.(peer := Serve(a.peer, a.ring[0]), ring := a.ring[1..])
  }

  function Settled(a: Air): Peer { Settle(a.peer, a.ring) }

  /** What is asked of the sender: it transmits only what the settled peer could take. */
  predicate Allowed(a: Air, step: Step, goal: Bytes) {
    Enabled(a, step) && (step.Transmit? ==> MsgOk(Settled(a), step.m, goal))
  }

  function Exec(start: Peer, steps: seq<Step>): Air {
    if steps == [] then Quiet(start) else
    var a, step := Exec(start, steps[..|steps| - 1]), steps[|steps| - 1];
    if Enabled(a, step) then Next(a, step) else a
  }

  predicate Disciplined(start: Peer, steps: seq<Step>, goal: Bytes) {
    steps == [] || (var before := steps[..|steps| - 1];
                    Disciplined(start, before, goal) && Allowed(Exec(start, before), steps[|steps| - 1], goal))
  }

  predicate Good(a: Air, goal: Bytes) {
    && PeerOk(a.peer, goal) && RingOk(a.peer, a.ring, goal) && |a.ring| <= RequestRing.RING
    && forall m | m in a.sent :: MsgOk(Settled(a), m, goal)
  }

  /** What never shrinks. */
  predicate Grows(a: Air, b: Air) {
    a.peer.slot <= b.peer.slot && Settled(a).slot <= Settled(b).slot && a.sent <= b.sent
  }

  lemma MsgStaysOk(p: Peer, q: Peer, m: TMsg, goal: Bytes)
    requires MsgOk(p, m, goal) && p.slot <= q.slot && q.slot <= goal
    ensures MsgOk(q, m, goal)
  {
    if m.Twrite? && m.offset + |m.data| > |q.slot| {
      var a, b := Store(p.slot, m.offset, m.data), Store(q.slot, m.offset, m.data);
      forall k | |q.slot| <= k < m.offset + |m.data|
        ensures b[k] == goal[k]
      {
        assert b[k] == m.data[k - m.offset] == a[k];
      }
    }
  }

  lemma LandKeeps(a: Air, m: TMsg, goal: Bytes)
    requires Good(a, goal) && Enabled(a, Land(m))
    ensures var b := Next(a, Land(m));
            Good(b, goal) && Grows(a, b) && Settled(b) == Serve(Settled(a), m)
  {
    var b, p := Next(a, Land(m)), Settled(a);
    SettleKeeps(a.peer, a.ring, goal);
    SettleSnoc(a.peer, a.ring, m);
    RingOkSnoc(a.peer, a.ring, m, goal);
    ServeKeeps(p, m, goal);
    hide Serve, RingOk, MsgOk, Settle;
    forall x | x in b.sent
      ensures MsgOk(Settled(b), x, goal)
    {
      MsgStaysOk(p, Settled(b), x, goal);
    }
  }

  /** Whatever lands, however late and however often, and whenever the peer serves. */
  lemma StepKeeps(a: Air, step: Step, goal: Bytes)
    requires Good(a, goal) && Allowed(a, step, goal)
    ensures var b := Next(a, step);
            && Good(b, goal) && Grows(a, b)
            && (step.Land? ==> Settled(b) == Serve(Settled(a), step.m))
            && (!step.Land? ==> Settled(b) == Settled(a))
  {
    match step
    case Land(m) => LandKeeps(a, m, goal);
    case Transmit(_) =>
      hide Serve;
    case Process =>
      hide Serve, MsgOk, PeerOk;
      ServeKeeps(a.peer, a.ring[0], goal);
  }

  lemma {:induction false} RunKeeps(start: Peer, steps: seq<Step>, goal: Bytes)
    requires PeerOk(start, goal) && Disciplined(start, steps, goal)
    ensures Good(Exec(start, steps), goal)
  {
    if steps != [] {
      hide Good, Next, Allowed;
      var before := steps[..|steps| - 1];
      RunKeeps(start, before, goal);
      AllowedIsEnabled(Exec(start, before), steps[|steps| - 1], goal);
      StepKeeps(Exec(start, before), steps[|steps| - 1], goal);
    } else {
      hide Serve;
    }
  }

  lemma AllowedIsEnabled(a: Air, step: Step, goal: Bytes)
    requires Allowed(a, step, goal)
    ensures Enabled(a, step)
  {
  }

  lemma {:induction false} DisciplinedPrefix(start: Peer, steps: seq<Step>, goal: Bytes, k: nat)
    requires Disciplined(start, steps, goal) && k <= |steps|
    ensures Disciplined(start, steps[..k], goal)
  {
    hide Allowed, Exec;
    if k == |steps| {
      assert steps[..k] == steps;
    } else {
      assert steps[..|steps| - 1][..k] == steps[..k];
      DisciplinedPrefix(start, steps[..|steps| - 1], goal, k);
    }
  }

  /** After k steps: the slot is a beginning of the goal with nothing skipped, what was finalized was all of
      the goal, and the slot trails the position the sender may count on by at most eight tiles. */
  predicate SafeAt(start: Peer, steps: seq<Step>, goal: Bytes, k: nat)
    requires k <= |steps|
  {
    var a := Exec(start, steps[..k]);
    && a.peer.slot <= goal && !a.peer.gap
    && (a.peer.committed.Some? ==> a.peer.committed.value == goal)
    && a.peer.slot <= Settled(a).slot <= goal
    && |Settled(a).slot| <= |a.peer.slot| + TILE * RequestRing.RING
  }

  /** So it is at every moment of a run whose sender is disciplined. */
  lemma RunIsSafe(start: Peer, steps: seq<Step>, goal: Bytes, k: nat)
    requires PeerOk(start, goal) && Disciplined(start, steps, goal) && k <= |steps|
    ensures SafeAt(start, steps, goal, k)
  {
    DisciplinedPrefix(start, steps, goal, k);
    RunKeeps(start, steps[..k], goal);
    var a := Exec(start, steps[..k]);
    hide Exec, Serve, MsgOk;
    SettleKeeps(a.peer, a.ring, goal);
  }

  // ---- finalizing ----

  /** Some copy of a clunk has landed. */
  predicate ClunkLanded(steps: seq<Step>) {
    exists k :: 0 <= k < |steps| && steps[k].Land? && steps[k].m.Tclunk?
  }

  lemma LandedMore(steps: seq<Step>, step: Step)
    ensures ClunkLanded(steps + [step]) <==> ClunkLanded(steps) || (step.Land? && step.m.Tclunk?)
  {
    var more := steps + [step];
    assert more[|steps|] == step;
    if k :| 0 <= k < |steps| && steps[k].Land? && steps[k].m.Tclunk? {
      assert more[k] == steps[k];
    }
    if k :| 0 <= k < |more| && more[k].Land? && more[k].m.Tclunk? {
      assert k < |steps| ==> steps[k] == more[k];
    }
  }

  lemma LandedStays(a: seq<Step>, b: seq<Step>)
    requires a <= b && ClunkLanded(a)
    ensures ClunkLanded(b)
  {
    var k :| 0 <= k < |a| && a[k].Land? && a[k].m.Tclunk?;
    assert b[k] == a[k];
  }

  /** The clunk that finalizes dev/firmware may be on the air, dev/firmware is open until one has landed, and
      one that has landed has finalized. */
  predicate Closing(start: Peer, steps: seq<Step>) {
    var a := Exec(start, steps);
    && (forall m | m in a.sent :: m.Tclunk? ==> m.fid == 2)
    && (Settled(a).committed.Some? || Settled(a).stage == 4)
    && (ClunkLanded(steps) ==> Settled(a).committed.Some?)
  }

  lemma CommitStays(p: Peer, m: TMsg)
    ensures p.committed.Some? ==> Serve(p, m).committed.Some?
    ensures !m.Tclunk? ==> Serve(p, m).committed == p.committed
    ensures m.Tclunk? && m.fid == 2 && p.stage == 4 ==> Serve(p, m).committed.Some?
  {
  }

  lemma ExecMore(start: Peer, steps: seq<Step>, step: Step)
    ensures var a := Exec(start, steps); Exec(start, steps + [step]) == if Enabled(a, step) then Next(a, step) else a
  {
    hide Next, Enabled;
    assert (steps + [step])[..|steps|] == steps;
  }

  /** Only a late Tversion, or a clunk of something else, could upset that. */
  lemma ClosingStep(start: Peer, steps: seq<Step>, step: Step, goal: Bytes)
    requires PeerOk(start, goal) && Disciplined(start, steps, goal)
    requires Allowed(Exec(start, steps), step, goal) && Closing(start, steps)
    requires step.Land? ==> !step.m.Tversion?
    requires step.Transmit? && step.m.Tclunk? ==> step.m.fid == 2
    ensures Closing(start, steps + [step])
  {
    var a := Exec(start, steps);
    RunKeeps(start, steps, goal);
    AllowedIsEnabled(a, step, goal);
    ExecMore(start, steps, step);
    LandedMore(steps, step);
    StepKeeps(a, step, goal);
    if step.Land? {
      SettleKeeps(a.peer, a.ring, goal);
      CommitStays(Settled(a), step.m);
      ServeKeeps(Settled(a), step.m, goal);
    }
    hide Exec, Serve, Good, Settled, ClunkLanded, MsgOk, PeerOk;
  }

  /** Nothing is finalized without a clunk landing. */
  lemma {:induction false} CommitNeedsLanding(start: Peer, steps: seq<Step>, goal: Bytes)
    requires PeerOk(start, goal) && start.committed.None? && Disciplined(start, steps, goal)
    ensures Settled(Exec(start, steps)).committed.Some? ==> ClunkLanded(steps)
  {
    if steps != [] {
      var before, step := steps[..|steps| - 1], steps[|steps| - 1];
      var a := Exec(start, before);
      CommitNeedsLanding(start, before, goal);
      RunKeeps(start, before, goal);
      assert steps == before + [step];
      AllowedIsEnabled(a, step, goal);
      ExecMore(start, before, step);
      LandedMore(before, step);
      StepKeeps(a, step, goal);
      if step.Land? {
        CommitStays(Settled(a), step.m);
      }
      hide Exec, Serve, Good, Settled, ClunkLanded, MsgOk;
    }
  }

  /** Nothing lands that was not transmitted. */
  lemma {:induction false} LandedWasSent(start: Peer, steps: seq<Step>, goal: Bytes)
    requires Disciplined(start, steps, goal) && forall m | m in Exec(start, steps).sent :: !m.Tclunk?
    ensures !ClunkLanded(steps)
  {
    if steps != [] {
      var before, step := steps[..|steps| - 1], steps[|steps| - 1];
      assert steps == before + [step];
      AllowedIsEnabled(Exec(start, before), step, goal);
      ExecMore(start, before, step);
      LandedMore(before, step);
      hide Exec, ClunkLanded;
      LandedWasSent(start, before, goal);
    }
  }

  lemma OpenIsClosing(start: Peer, steps: seq<Step>, goal: Bytes)
    requires PeerOk(start, goal) && Disciplined(start, steps, goal) && Settled(Exec(start, steps)).stage >= 4
    requires forall m | m in Exec(start, steps).sent :: !m.Tclunk?
    ensures Closing(start, steps)
  {
    RunKeeps(start, steps, goal);
    LandedWasSent(start, steps, goal);
    var a := Exec(start, steps);
    SettleKeeps(a.peer, a.ring, goal);
  }

  /** While closing, the whole of the goal is finalized if and only if some copy of the clunk has landed. */
  lemma FinalizedExactly(start: Peer, steps: seq<Step>, goal: Bytes)
    requires PeerOk(start, goal) && start.committed.None? && Disciplined(start, steps, goal) && Closing(start, steps)
    ensures Settled(Exec(start, steps)).committed == Some(goal) <==> ClunkLanded(steps)
  {
    RunKeeps(start, steps, goal);
    CommitNeedsLanding(start, steps, goal);
    var a := Exec(start, steps);
    SettleKeeps(a.peer, a.ring, goal);
  }
}
