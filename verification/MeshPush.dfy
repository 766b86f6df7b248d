/** Firmware push over the mesh, sender side: the host's resumable loop (do_mesh_ota, tools/aether_conv.c),
    the relay's sub-chunking (push_write, dect_relay/src/main.c) and the gateway's session, tiling and
    resends (aether_net_push_*, dect_mesh/src/aether_net.c), over air that loses requests and
    acknowledgements and lands any earlier request again at any later time. */
module MeshPush {
  import opened Wire
  import opened MeshPeer
  import RequestRing

  /** "9P2000", "t" */
  const VERSION: Bytes := [57, 80, 50, 48, 48, 48]
  const UNAME: Bytes := [116]

  /** How far the host backs up when a pass stalls. */
  const BACKUP := 16384

  function ResumeFrom(off: nat): nat { if off > BACKUP then off - BACKUP else 0 }

  /** No finalizing clunk has been transmitted yet. */
  ghost predicate NoClunk(sent: set<TMsg>) { forall m | m in sent :: !m.Tclunk? }

  /** What an acknowledged request has done to the settled peer. */
  predicate Effect(m: TMsg, p: Peer, q: Peer) {
    match m
    case Tversion(_, _) => q.stage >= 1
    case Tattach(_, fid, _, _, _) => fid == 0 && p.stage >= 1 ==> q.stage >= 2
    case Twalk(_, fid, newfid, names) =>
      fid == 0 && newfid == 2 && names == [DEV, FIRMWARE] && p.stage >= 2 ==> q.stage >= 3
    case Topen(_, fid, mode) => fid == 2 && mode == OWRITE && p.stage >= 3 ==> q.stage >= 4
    case Twrite(_, fid, off, data) => fid == 2 && p.stage >= 4 ==> off + |data| <= |q.slot|
    case _ => true   // what an acknowledged clunk has done is ClunkLanded and Closing
  }

  /** The open file stays open. */
  ghost predicate Holds(a: Air, b: Air) {
    NoClunk(b.sent) ==> Settled(a).stage <= Settled(b).stage
  }

  lemma GrowsSelf(a: Air)
    ensures Grows(a, a) && Holds(a, a)
  {
  }

  lemma Through(a: Air, b: Air, c: Air)
    requires Grows(a, b) && Grows(b, c)
    ensures Grows(a, c)
    ensures Holds(a, b) && Holds(b, c) ==> Holds(a, c)
  {
    hide Settle;
  }

  lemma LandHolds(a: Air, b: Air, m: TMsg, goal: Bytes)
    requires Good(a, goal) && !m.Tversion? && m in b.sent && Settled(b) == Serve(Settled(a), m)
    ensures Holds(a, b)
  {
    hide Settle;
  }

  lemma LandEffect(a: Air, mid: Air, b: Air, m: TMsg, goal: Bytes)
    requires Good(mid, goal) && m in mid.sent && Settled(b) == Serve(Settled(mid), m)
    requires m.Tversion? || Holds(a, mid)
    ensures NoClunk(mid.sent) ==> Effect(m, Settled(a), Settled(b))
  {
    SettleKeeps(mid.peer, mid.ring, goal);
    ServeKeeps(Settled(mid), m, goal);
    hide Settle;
  }

  lemma EffectStays(m: TMsg, p: Peer, a: Air, b: Air)
    requires Effect(m, p, Settled(a)) && Grows(a, b) && Holds(a, b) && NoClunk(b.sent)
    ensures Effect(m, p, Settled(b))
  {
    hide Settle;
  }

  /** A step that leaves the file open, or closes it by the clunk that finalizes it. */
  predicate Benign(step: Step) {
    && (step.Land? ==> !step.m.Tversion?)
    && (step.Transmit? && step.m.Tclunk? ==> step.m.fid == 2)
  }

  lemma StartsOk(first: Peer, file: Bytes)
    requires Initial(first)
    ensures PeerOk(first, Over(first.slot, file)) && first.committed.None?
  {
  }

  lemma StillFrom(slot: Bytes, a: Air, b: Air)
    requires slot <= a.peer.slot && Grows(a, b)
    ensures slot <= b.peer.slot
  {
  }

  class Mesh {
    ghost const file: Bytes      // the image of this run
    ghost const first: Peer      // the peer as the run finds it
    ghost const goal: Bytes      // what its slot is to become
    const maxMsg: u32
    var peer: Peer
    var ring: seq<TMsg>
    var sent: set<TMsg>
    ghost var steps: seq<Step>
    ghost var faults: nat        // what went wrong underneath: unacknowledged sends, missing replies, refused opens

    ghost function View(): Air
      reads this
    {
      Air(peer, ring, sent)
    }

    ghost predicate Valid()
      reads this
    {
      && Initial(first) && goal == Over(first.slot, file)
      && View() == Exec(first, steps) && Disciplined(first, steps, goal) && Good(View(), goal)
      && first.slot <= peer.slot
    }

    constructor (maxMsg: u32, ghost file: Bytes, first: Peer)
      requires Initial(first)
      ensures Valid() && View() == Quiet(first) && steps == [] && this.maxMsg == maxMsg
      ensures this.file == file && this.first == first
    {
      this.maxMsg, this.file, this.first, this.goal := maxMsg, file, first, Over(first.slot, file);
      peer, ring, sent, steps, faults := first, [], {}, [], 0;
    }

    ghost method Record(step: Step, before: Air)
      requires Initial(first) && goal == Over(first.slot, file) && first.slot <= before.peer.slot
      requires before == Exec(first, steps) && Disciplined(first, steps, goal) && Good(before, goal)
      requires Allowed(before, step, goal) && View() == Next(before, step)
      modifies this`steps
      ensures Valid() && steps == old(steps) + [step] && Grows(before, View())
      ensures Settled(View()) == if step.Land? then Serve(Settled(before), step.m) else Settled(before)
      ensures Benign(step) && Closing(first, old(steps)) ==> Closing(first, steps)
      ensures step.Land? && step.m.Tclunk? ==> ClunkLanded(steps)
    {
      StartsOk(first, file);
      hide Good, Next, Allowed, Serve, Grows, Closing, ClunkLanded, Initial, Over;
      if Benign(step) && Closing(first, steps) {
        ClosingStep(first, steps, step, goal);
      }
      LandedMore(steps, step);
      assert (steps + [step])[..|steps|] == steps;
      AllowedIsEnabled(before, step, goal);
      StepKeeps(before, step, goal);
      StillFrom(first.slot, before, View());
      steps := steps + [step];
    }

    method Transmit(m: TMsg)
      requires Valid() && MsgOk(Settled(View()), m, goal)
      modifies this
      ensures Valid() && old(steps) <= steps && Grows(old(View()), View())
      ensures Settled(View()) == old(Settled(View())) && sent == old(sent) + {m}
      ensures faults == old(faults)
      ensures (m.Tclunk? ==> m.fid == 2) && Closing(first, old(steps)) ==> Closing(first, steps)
    {
      hide Good, Exec, Disciplined, Serve, Grows, MsgOk, Closing;
      ghost var before := View();
      sent := sent + {m};
      Record(Step.Transmit(m), before);
    }

    method Land(m: TMsg)
      requires Valid() && m in sent && |ring| < RequestRing.RING
      modifies this
      ensures Valid() && old(steps) <= steps && Grows(old(View()), View())
      ensures Settled(View()) == Serve(old(Settled(View())), m) && sent == old(sent)
      ensures faults == old(faults)
      ensures !m.Tversion? && Closing(first, old(steps)) ==> Closing(first, steps)
      ensures m.Tclunk? ==> ClunkLanded(steps)
    {
      hide Good, Exec, Disciplined, Serve, Grows, Closing, ClunkLanded;
      ghost var before := View();
      ring := ring + [m];
      Record(Step.Land(m), before);
    }

    method Process()
      requires Valid() && ring != []
      modifies this
      ensures Valid() && old(steps) <= steps && Grows(old(View()), View())
      ensures Settled(View()) == old(Settled(View())) && sent == old(sent)
      ensures faults == old(faults)
      ensures Closing(first, old(steps)) ==> Closing(first, steps)
    {
      hide Good, Exec, Disciplined, Serve, Grows, Closing;
      ghost var before := View();
      peer, ring := Serve(peer, ring[0]), ring[1..];
      Record(Step.Process, before);
    }

    /** Anything may happen between the gateway's own moves: the peer serves, and requests sent before land
        again; only a Tversion does not outlive its own exchange. */
    method Background()
      requires Valid()
      modifies this
      ensures Valid() && old(steps) <= steps && Grows(old(View()), View()) && Holds(old(View()), View())
      ensures sent == old(sent) && faults == old(faults)
      ensures Closing(first, old(steps)) ==> Closing(first, steps)
    {
      hide Good, Exec, Disciplined, Serve, Grows, Settle, Closing;
      var n: int := *;
      GrowsSelf(View());
      while n > 0
        invariant Valid() && old(steps) <= steps && Grows(old(View()), View()) && Holds(old(View()), View())
        invariant sent == old(sent) && faults == old(faults)
        invariant Closing(first, old(steps)) ==> Closing(first, steps)
      {
        ghost var mid := View();
        GrowsSelf(mid);
        n := n - 1;
        var late: TMsg, serve: bool := *, *;
        if serve && ring != [] {
          Process();
        } else if late in sent && !late.Tversion? && |ring| < RequestRing.RING {
          Land(late);
          LandHolds(mid, View(), late, goal);
        }
        Through(old(View()), mid, View());
      }
    }

    /** aether_mesh_send_reliable: the datagram may be lost, or land without its acknowledgement coming
        back; a success means it landed. The peer's server takes it because of its shape. */
    method SendReliable(m: TMsg) returns (ok: bool)
      requires Valid() && MsgOk(Settled(View()), m, goal)
      requires Frameable(m) && LooksLikeT(Encode(m), maxMsg)
      modifies this
      ensures Valid() && old(steps) <= steps && Grows(old(View()), View())
      ensures sent == old(sent) + {m} && faults == old(faults) + if ok then 0 else 1
      ensures ok && NoClunk(sent) ==> Effect(m, old(Settled(View())), Settled(View()))
      ensures !m.Tversion? ==> Holds(old(View()), View())
      ensures !m.Tversion? && (m.Tclunk? ==> m.fid == 2) && Closing(first, old(steps)) ==> Closing(first, steps)
      ensures ok && m.Tclunk? ==> ClunkLanded(steps)
    {
      hide Good, Exec, Disciplined, Serve, Grows, Settle, Encode, Frameable, LooksLikeT, Effect, MsgOk;
      hide Closing, ClunkLanded;
      Transmit(m);
      ok := false;
      var tries: int := *;
      while tries > 0
        invariant Valid() && old(steps) <= steps && Grows(old(View()), View())
        invariant !m.Tversion? ==> Holds(old(View()), View())
        invariant !m.Tversion? && (m.Tclunk? ==> m.fid == 2) && Closing(first, old(steps)) ==> Closing(first, steps)
        invariant sent == old(sent) + {m} && !ok && faults == old(faults)
      {
        ghost var start := View();
        tries := tries - 1;
        Background();
        ghost var mid := View();
        Through(old(View()), start, mid);
        var arrives, acked: bool := *, *;
        if arrives && |ring| < RequestRing.RING {
          Land(m);
          if !m.Tversion? {
            LandHolds(mid, View(), m, goal);
          }
          Through(old(View()), mid, View());
          if acked {
            LandEffect(old(View()), mid, View(), m, goal);
            ok := true;
            break;
          }
        }
      }
      ghost var landed, stepsThen := View(), steps;
      Background();
      Through(old(View()), landed, View());
      if ok && m.Tclunk? {
        LandedStays(stepsThen, steps);
      }
      if ok && NoClunk(sent) {
        EffectStays(m, old(Settled(View())), landed, View());
      }
      if !ok {
        Fault();
      }
    }

    ghost method Fault()
      modifies this`faults
      ensures faults == old(faults) + 1
    {
      faults := faults + 1;
    }
  }

  // ---- the gateway ----

  /** The data part of a tile: 384 bytes, or what the datagram has room for behind the header. */
  function MaxData(maxMsg: u32): (n: nat)
    requires maxMsg >= 32
    ensures 0 < n <= TILE && TWRITE_HDR + n <= maxMsg && n <= 384 && (n == 384 || 23 + n == maxMsg)
  {
    if maxMsg - TWRITE_HDR > TILE then TILE else maxMsg - TWRITE_HDR
  }

  /** How a block at an offset is cut into mesh writes. */
  function Tiles(off: nat, buf: Bytes, max: nat): seq<(nat, Bytes)>
    requires max > 0
    decreases |buf|
  {
    if buf == [] then [] else
    var n := if |buf| > max then max else |buf|;
    [(off, buf[..n])] + Tiles(off + n, buf[n..], max)
  }

  function TileData(tiles: seq<(nat, Bytes)>): Bytes {
    if tiles == [] then [] else tiles[0].1 + TileData(tiles[1..])
  }

  /** Each piece starts where the one before ended, none is empty or too large, and only the last is short. */
  predicate Contiguous(tiles: seq<(nat, Bytes)>, off: nat, max: nat) {
    tiles == [] ||
    (&& tiles[0].0 == off && 0 < |tiles[0].1| <= max && (|tiles| > 1 ==> |tiles[0].1| == max)
     && Contiguous(tiles[1..], off + |tiles[0].1|, max))
  }

  /** A block is tiled without gap or overlap. */
  lemma {:induction false} TilesCover(off: nat, buf: Bytes, max: nat)
    requires max > 0
    ensures TileData(Tiles(off, buf, max)) == buf && Contiguous(Tiles(off, buf, max), off, max)
    decreases |buf|
  {
    if buf != [] {
      var n := if |buf| > max then max else |buf|;
      TilesCover(off + n, buf[n..], max);
      assert Tiles(off, buf, max)[1..] == Tiles(off + n, buf[n..], max);
    }
  }

  lemma SliceOfSlice(file: Bytes, buf: Bytes, off: nat, done: nat, n: nat)
    requires off + |buf| <= |file| && buf == file[off..off + |buf|] && done + n <= |buf|
    ensures buf[done..done + n] == file[off + done..off + done + n]
  {
    var piece := buf[done..done + n];
    forall i | 0 <= i < n
      ensures piece[i] == file[off + done + i]
    {
      assert piece[i] == buf[done + i] == file[off..off + |buf|][done + i];
    }
  }

  lemma NoTiles(off: nat, buf: Bytes, max: nat)
    requires max > 0 && buf == []
    ensures Tiles(off, buf, max) == []
  {
  }

  lemma TileNext(off: nat, buf: Bytes, done: nat, n: nat, max: nat)
    requires max > 0 && done < |buf| && n == if |buf| - done > max then max else |buf| - done
    ensures Tiles(off + done, buf[done..], max)
         == [(off + done, buf[done..done + n])] + Tiles(off + (done + n), buf[done + n..], max)
  {
    assert buf[done..][..n] == buf[done..done + n] && buf[done..][n..] == buf[done + n..];
  }

  /** A message that fits one datagram is one the peer's server recognizes. */
  lemma Recognized(t: TMsg, maxMsg: u32)
    requires Frameable(t) && FrameSize(t) <= maxMsg
    ensures LooksLikeT(Encode(t), maxMsg)
  {
    hide Fields, Np32, Ng32, Encodable, Encode;
    DemuxSeparates(t, [0, 0, 0, 0, TypeOf(t) + 1, 0, 0], maxMsg);
  }

  lemma SetupRecognized(m: TMsg, tag: u16, maxMsg: u32)
    requires maxMsg >= 32
    requires || m == Tversion(maxMsg, VERSION)
             || m == Tattach(tag, 0, 0xffff_ffff, UNAME, [])
             || m == Twalk(tag, 0, 2, [DEV, FIRMWARE])
             || m == Topen(tag, 2, OWRITE)
             || m == Tclunk(tag, 2)
    ensures Frameable(m) && LooksLikeT(Encode(m), maxMsg)
  {
    PutTwoNames(DEV, FIRMWARE);
    Recognized(m, maxMsg);
  }

  /** The walk that tells a push from a drain, as it goes out, to dev/firmware; and its open, for writing. */
  lemma WalkOnTheWire()
    ensures var t := Twalk(2, 0, 2, [DEV, FIRMWARE]);
            && Frameable(t)
            && Encode(t) == [32, 0, 0, 0] + ([110] + ([2, 0] + ([0, 0, 0, 0] + ([2, 0, 0, 0] + ([2, 0]
                            + ([3, 0, 100, 101, 118] + [8, 0, 102, 105, 114, 109, 119, 97, 114, 101]))))))
  {
    PutTwoNames(DEV, FIRMWARE);
    assert PutStr(DEV) == [3, 0, 100, 101, 118];
    assert PutStr(FIRMWARE) == [8, 0, 102, 105, 114, 109, 119, 97, 114, 101];
    assert Np16(2) == [2, 0] && Np32(32) == [32, 0, 0, 0] && Np32(0) == [0, 0, 0, 0] && Np32(2) == [2, 0, 0, 0];
    hide PutStr, PutNames, Np16, Np32;
  }

  lemma OpenOnTheWire()
    ensures Encode(Topen(3, 2, OWRITE)) == [12, 0, 0, 0] + ([112] + ([3, 0] + ([2, 0, 0, 0] + [1])))
  {
    assert Np16(3) == [3, 0] && Np32(12) == [12, 0, 0, 0] && Np32(2) == [2, 0, 0, 0];
    hide Np16, Np32;
  }

  lemma TileRecognized(tag: u16, off: u64, data: Bytes, maxMsg: u32)
    requires maxMsg >= 32 && |data| <= MaxData(maxMsg)
    ensures var t := Twrite(tag, 2, off, data); Frameable(t) && LooksLikeT(Encode(t), maxMsg)
  {
    Recognized(Twrite(tag, 2, off, data), maxMsg);
  }

  /** A finalizing clunk goes out only when the whole goal is in. */
  lemma ClunkedIsWhole(a: Air, goal: Bytes)
    requires Good(a, goal) && !NoClunk(a.sent)
    ensures Settled(a).slot == goal
  {
    hide Settle, RingOk;
  }

  lemma AgainOk(a: Air, b: Air, m: TMsg, goal: Bytes)
    requires MsgOk(Settled(a), m, goal) && Grows(a, b) && Good(b, goal)
    ensures MsgOk(Settled(b), m, goal)
  {
    SettleKeeps(b.peer, b.ring, goal);
    MsgStaysOk(Settled(a), Settled(b), m, goal);
  }

  lemma EffectAgain(m: TMsg, a: Air, b: Air, c: Air)
    requires Effect(m, Settled(b), Settled(c)) && !m.Twrite? && NoClunk(c.sent) && b.sent <= c.sent
    requires m.Tversion? || Holds(a, b)
    ensures Effect(m, Settled(a), Settled(c))
  {
    hide Settle;
  }

  lemma TileSent(a: Air, b: Air, t: TMsg, goal: Bytes, sr: bool)
    requires t.Twrite? && t.fid == 2 && Good(b, goal) && Grows(a, b) && Holds(a, b) && t in b.sent
    requires t.offset + |t.data| <= |goal|
    requires t.offset <= |Settled(a).slot| && (NoClunk(a.sent) ==> Settled(a).stage >= 4)
    requires sr && NoClunk(b.sent) ==> Effect(t, Settled(a), Settled(b))
    ensures t.offset <= |Settled(b).slot| && (NoClunk(b.sent) ==> Settled(b).stage >= 4)
    ensures sr ==> t.offset + |t.data| <= |Settled(b).slot|
  {
    hide Settle, Good;
    if !NoClunk(b.sent) {
      ClunkedIsWhole(b, goal);
    }
  }

  /** A piece of the file is a request the settled peer can take. */
  lemma TileOk(a: Air, t: TMsg, base: Bytes, file: Bytes)
    requires Good(a, Over(base, file)) && base <= a.peer.slot
    requires t.Twrite? && t.offset <= |Settled(a).slot| && |t.data| <= TILE
    requires t.offset + |t.data| <= |file| && t.data == file[t.offset..t.offset + |t.data|]
    ensures MsgOk(Settled(a), t, Over(base, file)) && |file| <= |Over(base, file)|
  {
    SlotWithinSettled(a, Over(base, file));
    PieceFits(base, file, Settled(a).slot, t.offset, t.data);
  }

  /** With the last byte of the file in, the goal is reached. */
  lemma GoalReached(a: Air, base: Bytes, file: Bytes)
    requires Good(a, Over(base, file)) && base <= a.peer.slot && |file| <= |Settled(a).slot|
    ensures Settled(a).slot == Over(base, file)
  {
    SlotWithinSettled(a, Over(base, file));
  }

  class Gateway {
    const mesh: Mesh
    var active: bool
    var tag: u16
    var woff: nat
    ghost var accepted: seq<(nat, Bytes)>   // acknowledged (offset, data) pieces

    ghost predicate Valid()
      reads this, mesh
    {
      && mesh.Valid() && mesh.maxMsg >= 32
      && (active && NoClunk(mesh.sent) ==> Settled(mesh.View()).stage >= 4)
    }

    constructor (mesh: Mesh)
      requires mesh.Valid() && mesh.maxMsg >= 32
      ensures Valid() && this.mesh == mesh && !active
    {
      this.mesh := mesh;
      active, tag, woff, accepted := false, 1, 0, [];
    }

    /** m9_rpc on a set-up request or the clunk: two attempts, unless a hang-up ends the first; success means the
        request was acknowledged and some reply bearing its tag came, though not necessarily its own. */
    method Rpc(m: TMsg) returns (ok: bool, ghost hung: bool)
      requires mesh.Valid() && !m.Twrite? && MsgOk(Settled(mesh.View()), m, mesh.goal)
      requires Frameable(m) && LooksLikeT(Encode(m), mesh.maxMsg)
      modifies mesh
      ensures mesh.Valid() && old(mesh.steps) <= mesh.steps && Grows(old(mesh.View()), mesh.View())
      ensures mesh.sent == old(mesh.sent) + {m}
      ensures mesh.faults >= old(mesh.faults) + if ok then 0 else if hung then 1 else 2
      ensures ok && NoClunk(mesh.sent) ==> Effect(m, old(Settled(mesh.View())), Settled(mesh.View()))
      ensures !m.Tversion? ==> Holds(old(mesh.View()), mesh.View())
      ensures !m.Tversion? && (m.Tclunk? ==> m.fid == 2) && Closing(mesh.first, old(mesh.steps)) ==>
                Closing(mesh.first, mesh.steps)
      ensures ok && m.Tclunk? ==> ClunkLanded(mesh.steps)
    {
      hide Good, Exec, Disciplined, Serve, Grows, Settle, Encode, Frameable, LooksLikeT, Effect, MsgOk, NoClunk;
      hide Closing, ClunkLanded;
      ghost var start := mesh.View();
      hung := false;
      ok := mesh.SendReliable(m);
      if ok {
        var replied, hungUp: bool := *, *;
        if replied {
          return;
        }
        mesh.Fault();
        if hungUp {
          return false, true;
        }
      }
      ghost var mid := mesh.View();
      AgainOk(start, mid, m, mesh.goal);
      ok := mesh.SendReliable(m);
      Through(start, mid, mesh.View());
      if ok {
        if NoClunk(mesh.sent) {
          EffectAgain(m, start, mid, mesh.View());
        }
        var replied: bool := *;
        if !replied {
          mesh.Fault();
          ok := false;
        }
      }
    }

    /** One request of the session set-up, with the next tag. */
    method SetupCall(m: TMsg) returns (ok: bool)
      requires mesh.Valid() && mesh.maxMsg >= 32 && tag < 0xffff
      requires || m == Tattach(tag, 0, 0xffff_ffff, UNAME, [])
               || m == Twalk(tag, 0, 2, [DEV, FIRMWARE])
               || m == Topen(tag, 2, OWRITE)
      modifies this`tag, mesh
      ensures mesh.Valid() && old(mesh.steps) <= mesh.steps && Grows(old(mesh.View()), mesh.View())
      ensures mesh.sent == old(mesh.sent) + {m} && tag == old(tag) + 1
      ensures mesh.faults >= old(mesh.faults) + if ok then 0 else 1
      ensures ok && NoClunk(mesh.sent) ==> Effect(m, old(Settled(mesh.View())), Settled(mesh.View()))
    {
      hide Good, Exec, Disciplined, Serve, Grows, Settle, Encode, Frameable, LooksLikeT, Effect;
      SetupRecognized(m, tag, mesh.maxMsg);
      tag := tag + 1;
      ghost var hung;
      ok, hung := Rpc(m);
    }

    /** aether_net_push_open (with m9_open_devfile): a session up to the open dev/firmware; a stream left open
        by an earlier target is dropped without a clunk. */
    method PushOpen() returns (ok: bool)
      requires Valid()
      modifies this, mesh
      ensures Valid() && old(mesh.steps) <= mesh.steps && Grows(old(mesh.View()), mesh.View())
      ensures ok == active && mesh.faults >= old(mesh.faults) + if ok then 0 else 1
      ensures ok ==> tag == 4 && woff == 0
      ensures NoClunk(old(mesh.sent)) ==> NoClunk(mesh.sent)
    {
      hide Good, Exec, Disciplined, Serve, Grows, Settle, Encode, Frameable, LooksLikeT;
      ghost var start := mesh.View();
      GrowsSelf(start);
      active, tag := false, 1;
      var slotFree: bool := *;   // conv_alloc
      if !slotFree {
        mesh.Fault();
        return false;
      }
      SetupRecognized(Tversion(mesh.maxMsg, VERSION), tag, mesh.maxMsg);
      ghost var hung;
      ok, hung := Rpc(Tversion(mesh.maxMsg, VERSION));
      if !ok { return; }
      ghost var mid := mesh.View();
      ok := SetupCall(Tattach(tag, 0, 0xffff_ffff, UNAME, []));
      Through(start, mid, mesh.View());
      if !ok { return; }
      mid := mesh.View();
      ok := SetupCall(Twalk(tag, 0, 2, [DEV, FIRMWARE]));
      Through(start, mid, mesh.View());
      if !ok { return; }
      mid := mesh.View();
      ok := SetupCall(Topen(tag, 2, OWRITE));
      Through(start, mid, mesh.View());
      active, woff := ok, 0;
    }

    /** One tile: up to twelve sends, each under a new tag, until one is acknowledged; it gives up only after
        twelve that were not. */
    method SendTile(off: u64, data: Bytes) returns (sr: bool)
      requires Valid() && active && 0 < |data| <= MaxData(mesh.maxMsg)
      requires off + |data| <= |mesh.file| && data == mesh.file[off..off + |data|]
      requires off <= |Settled(mesh.View()).slot|
      modifies this`tag, mesh
      ensures Valid() && old(mesh.steps) <= mesh.steps && Grows(old(mesh.View()), mesh.View())
      ensures NoClunk(old(mesh.sent)) ==> NoClunk(mesh.sent)
      ensures sr ==> off + |data| <= |Settled(mesh.View()).slot|
      ensures old(mesh.faults) <= mesh.faults <= old(mesh.faults) + 12
      ensures !sr ==> mesh.faults == old(mesh.faults) + 12
      ensures tag == (old(tag) + (mesh.faults - old(mesh.faults)) + if sr then 1 else 0) % 0x1_0000
    {
      hide Good, Exec, Disciplined, Serve, Grows, Settle, Encode, Frameable, LooksLikeT, Holds;
      ghost var start := mesh.View();
      sr := false;
      var attempt := 0;
      GrowsSelf(start);
      while attempt < 12 && !sr
        invariant attempt <= 12 && Valid() && active && (sr ==> attempt > 0)
        invariant mesh.faults == old(mesh.faults) + if sr then attempt - 1 else attempt
        invariant tag == (old(tag) + attempt) % 0x1_0000
        invariant old(mesh.steps) <= mesh.steps && Grows(start, mesh.View()) && Holds(start, mesh.View())
        invariant NoClunk(old(mesh.sent)) ==> NoClunk(mesh.sent)
        invariant off <= |Settled(mesh.View()).slot|
        invariant sr ==> off + |data| <= |Settled(mesh.View()).slot|
      {
        ghost var mid := mesh.View();
        var t := Twrite(tag, 2, off, data);
        tag := (tag + 1) % 0x1_0000;
        attempt := attempt + 1;
        TileRecognized(t.tag, off, data, mesh.maxMsg);
        TileOk(mid, t, mesh.first.slot, mesh.file);
        sr := mesh.SendReliable(t);
        Through(start, mid, mesh.View());
        TileSent(mid, mesh.View(), t, mesh.goal, sr);
      }
    }

    /** aether_net_push_write: all of the block, tile after tile, or an error. */
    method PushWrite(buf: Bytes, offset: u64) returns (r: int)
      requires Valid()
      requires offset + |buf| <= |mesh.file| < 0x1_0000_0000_0000_0000 && buf == mesh.file[offset..offset + |buf|]
      requires offset <= |Settled(mesh.View()).slot|
      modifies this, mesh
      ensures Valid() && active == old(active)
      ensures old(mesh.steps) <= mesh.steps && Grows(old(mesh.View()), mesh.View())
      ensures NoClunk(old(mesh.sent)) ==> NoClunk(mesh.sent)
      ensures (r == |buf| || r < 0) && (!active ==> r < 0)
      ensures r >= 0 ==> && offset + |buf| <= |Settled(mesh.View()).slot| && woff == offset + |buf|
                         && accepted == old(accepted) + Tiles(offset, buf, MaxData(mesh.maxMsg))
      ensures old(accepted) <= accepted <= old(accepted) + Tiles(offset, buf, MaxData(mesh.maxMsg))
      ensures mesh.faults >= old(mesh.faults) + if r < 0 && active then 12 else 0
    {
      hide Good, Exec, Disciplined, Serve, Grows, Settle, MaxData, NoClunk, Tiles;
      ghost var tiles := Tiles(offset, buf, MaxData(mesh.maxMsg));
      GrowsSelf(mesh.View());
      if !active {
        return -1;
      }
      var maxData := MaxData(mesh.maxMsg);
      var done := 0;
      while done < |buf|
        invariant done <= |buf| && Valid() && active
        invariant old(mesh.steps) <= mesh.steps && Grows(old(mesh.View()), mesh.View())
        invariant NoClunk(old(mesh.sent)) ==> NoClunk(mesh.sent)
        invariant offset + done <= |Settled(mesh.View()).slot|
        invariant accepted + Tiles(offset + done, buf[done..], maxData) == old(accepted) + tiles
        invariant old(accepted) <= accepted && mesh.faults >= old(mesh.faults)
      {
        var n := if |buf| - done > maxData then maxData else |buf| - done;
        ghost var mid := mesh.View();
        SliceOfSlice(mesh.file, buf, offset, done, n);
        var sr := SendTile(offset + done, buf[done..done + n]);
        Through(old(mesh.View()), mid, mesh.View());
        if !sr {
          return -1;
        }
        TileNext(offset, buf, done, n, maxData);
        accepted := accepted + [(offset + done, buf[done..done + n])];
        done := done + n;
      }
      assert Tiles(offset + done, buf[done..], maxData) == [] by {
        NoTiles(offset + done, buf[done..], maxData);
      }
      woff := offset + done;
      return done;
    }

    /** aether_net_push_close: the finalizing clunk, best-effort; asked for only once the whole file is in. The
        outcome of its RPC is ignored, so it succeeds whether or not the clunk lands, and the slot is finalized
        exactly when it does; with nothing going wrong underneath it does. */
    method PushClose() returns (ok: bool)
      requires Valid() && Settled(mesh.View()).slot == mesh.goal
      modifies this, mesh
      ensures Valid() && !active && ok == old(active) && (ok ==> !NoClunk(mesh.sent))
      ensures mesh.faults >= old(mesh.faults)
      ensures old(mesh.steps) <= mesh.steps && Grows(old(mesh.View()), mesh.View())
      ensures ok && NoClunk(old(mesh.sent)) ==>
                (Settled(mesh.View()).committed == Some(mesh.goal) <==> ClunkLanded(mesh.steps))
      ensures ok && mesh.faults == old(mesh.faults) ==> ClunkLanded(mesh.steps)
    {
      hide Good, Exec, Disciplined, Serve, Grows, Settle, Encode, Frameable, LooksLikeT;
      hide Closing, ClunkLanded;
      if !active {
        GrowsSelf(mesh.View());
        return false;
      }
      if NoClunk(mesh.sent) {
        OpenIsClosing(mesh.first, mesh.steps, mesh.goal);
      }
      var clunk := Tclunk(tag, 2);
      SetupRecognized(clunk, tag, mesh.maxMsg);
      tag := (tag + 1) % 0x1_0000;
      var _, _ := Rpc(clunk);
      if Closing(mesh.first, mesh.steps) {
        FinalizedExactly(mesh.first, mesh.steps, mesh.goal);
      }
      active := false;
      return true;
    }
  }

  // ---- the relay ----

  /** A piece of the file, by offset and length. */
  datatype Block = Block(off: nat, len: nat)

  class Relay {
    const gw: Gateway
    const mesh: Mesh
    const chunk: nat             // CONFIG_NINEP_REMOTE_FS_WRITE_CHUNK
    var writing: bool            // the held dev/push fid on the 9151
    ghost var took: seq<Block>   // the blocks the host has been told are written

    ghost predicate Valid()
      reads this, gw, mesh
    {
      gw.mesh == mesh && gw.Valid() && chunk > 0 && |mesh.file| < 0x8000_0000_0000_0000
    }

    constructor (gw: Gateway, chunk: nat)
      requires gw.Valid() && chunk > 0 && |gw.mesh.file| < 0x8000_0000_0000_0000
      ensures Valid() && this.gw == gw && mesh == gw.mesh
    {
      this.gw, this.mesh, this.chunk, this.writing, this.took := gw, gw.mesh, chunk, false, [];
    }

    /** push_ctl_write carrying "target": it may not reach the gateway, and its reply may not come back. */
    method PushTarget() returns (ok: bool)
      requires Valid()
      modifies gw, mesh
      ensures Valid() && old(mesh.steps) <= mesh.steps && Grows(old(mesh.View()), mesh.View())
      ensures mesh.faults >= old(mesh.faults) + if ok then 0 else 1
      ensures ok ==> gw.active
      ensures NoClunk(old(mesh.sent)) ==> NoClunk(mesh.sent)
    {
      hide Good, Exec, Disciplined, Grows, Settle, NoClunk;
      GrowsSelf(mesh.View());
      var reached, replied: bool := *, *;
      ok := false;
      if reached {
        ok := gw.PushOpen();
      }
      if !reached || !replied {
        mesh.Fault();
        ok := false;
      }
    }

    /** push_ctl_write carrying "commit". */
    method PushCommit() returns (ok: bool)
      requires Valid() && Settled(mesh.View()).slot == mesh.goal
      modifies gw, mesh
      ensures Valid() && old(mesh.steps) <= mesh.steps && Grows(old(mesh.View()), mesh.View())
      ensures ok ==> !NoClunk(mesh.sent)
      ensures mesh.faults >= old(mesh.faults) + if ok || !old(gw.active) then 0 else 1
      ensures ok && NoClunk(old(mesh.sent)) ==>
                (Settled(mesh.View()).committed == Some(mesh.goal) <==> ClunkLanded(mesh.steps))
      ensures ok && mesh.faults == old(mesh.faults) ==> ClunkLanded(mesh.steps)
    {
      hide Good, Exec, Disciplined, Grows, Settle, NoClunk, ClunkLanded;
      GrowsSelf(mesh.View());
      var reached, replied: bool := *, *;
      ok := false;
      if reached {
        ok := gw.PushClose();
      }
      if !reached || !replied {
        mesh.Fault();
        ok := false;
      }
    }

    /** ninep_client_write on the held fid, of no more than a chunk: an error may come back although the gateway
        took the bytes. */
    method RemoteWrite(buf: Bytes, off: u64) returns (ret: int)
      requires Valid() && |buf| <= chunk
      requires off + |buf| <= |mesh.file| && buf == mesh.file[off..off + |buf|]
      requires off <= |Settled(mesh.View()).slot|
      modifies gw, mesh
      ensures Valid() && old(mesh.steps) <= mesh.steps && Grows(old(mesh.View()), mesh.View())
      ensures ret == |buf| || ret < 0
      ensures ret >= 0 ==> off + |buf| <= |Settled(mesh.View()).slot|
      ensures gw.active == old(gw.active)
      ensures mesh.faults >= old(mesh.faults) + if ret < 0 && gw.active then 1 else 0
      ensures NoClunk(old(mesh.sent)) ==> NoClunk(mesh.sent)
    {
      hide Good, Exec, Disciplined, Grows, Settle, NoClunk, Tiles, MaxData;
      GrowsSelf(mesh.View());
      var reached, replied: bool := *, *;
      ret := -1;
      if reached {
        ret := gw.PushWrite(buf, off);
      }
      if !reached || !replied {
        mesh.Fault();
        ret := -1;
      }
    }

    /** push_write: the host's block in bounded pieces at the host's own offsets; all of it or an error, an
        error although a first part of it may have gone through. */
    method PushWrite(buf: Bytes, off: u64) returns (ret: int)
      requires Valid()
      requires off + |buf| <= |mesh.file| && buf == mesh.file[off..off + |buf|]
      requires off <= |Settled(mesh.View()).slot|
      modifies this, gw, mesh
      ensures Valid() && old(mesh.steps) <= mesh.steps && Grows(old(mesh.View()), mesh.View())
      ensures ret == |buf| || ret < 0
      ensures ret >= 0 ==> off + |buf| <= |Settled(mesh.View()).slot|
      ensures gw.active == old(gw.active) && took == old(took)
      ensures mesh.faults >= old(mesh.faults) + if ret < 0 && gw.active then 1 else 0
      ensures NoClunk(old(mesh.sent)) ==> NoClunk(mesh.sent)
    {
      hide Good, Exec, Disciplined, Grows, Settle, NoClunk;
      GrowsSelf(mesh.View());
      if !writing {
        var walked: bool := *;
        if !walked {
          mesh.Fault();
          return -1;
        }
        writing := true;
      }
      var done := 0;
      while done < |buf|
        invariant done <= |buf| && Valid() && gw.active == old(gw.active) && mesh.faults >= old(mesh.faults)
        invariant took == old(took)
        invariant NoClunk(old(mesh.sent)) ==> NoClunk(mesh.sent)
        invariant old(mesh.steps) <= mesh.steps && Grows(old(mesh.View()), mesh.View())
        invariant off + done <= |Settled(mesh.View()).slot|
      {
        var n := if |buf| - done > chunk then chunk else |buf| - done;
        SliceOfSlice(mesh.file, buf, off, done, n);
        ghost var mid := mesh.View();
        ret := RemoteWrite(buf[done..done + n], off + done);
        Through(old(mesh.View()), mid, mesh.View());
        if ret < 0 {
          writing := false;
          return;
        }
        done := done + ret;
        if ret < n {
          break;
        }
      }
      ret := done;
    }

    method PushClunk()
      requires Valid()
      modifies this`writing
      ensures Valid() && !writing
    {
      writing := false;
    }
  }

  // ---- the host ----

  /** A whole block is in the settled slot and on the host's record, or the write failed and the slot has at least
      not shrunk. */
  method HostWrite(relay: Relay, buf: Bytes, off: u64) returns (w: int)
    requires relay.Valid()
    requires off + |buf| <= |relay.mesh.file| && buf == relay.mesh.file[off..off + |buf|]
    requires off <= |Settled(relay.mesh.View()).slot|
    modifies relay, relay.gw, relay.mesh
    ensures relay.Valid()
    ensures old(relay.mesh.steps) <= relay.mesh.steps && Grows(old(relay.mesh.View()), relay.mesh.View())
    ensures w == |buf| || w < 0
    ensures w >= 0 ==> off + |buf| <= |Settled(relay.mesh.View()).slot|
    ensures relay.gw.active == old(relay.gw.active)
    ensures relay.took == old(relay.took) + if w >= 0 then [Block(off, |buf|)] else []
    ensures relay.mesh.faults >= old(relay.mesh.faults) + if w < 0 && relay.gw.active then 15 else 0
    ensures NoClunk(old(relay.mesh.sent)) ==> NoClunk(relay.mesh.sent)
  {
    hide Good, Exec, Disciplined, Grows, Settle, NoClunk;
    ghost var start := relay.mesh.View();
    GrowsSelf(start);
    w := -1;
    var attempt := 0;
    while attempt < 15 && w < 0
      invariant attempt <= 15 && relay.Valid()
      invariant old(relay.mesh.steps) <= relay.mesh.steps && Grows(start, relay.mesh.View())
      invariant w == |buf| || w < 0
      invariant w >= 0 ==> off + |buf| <= |Settled(relay.mesh.View()).slot|
      invariant relay.gw.active == old(relay.gw.active) && relay.took == old(relay.took)
      invariant relay.mesh.faults >= old(relay.mesh.faults) + if w < 0 && relay.gw.active then attempt else 0
      invariant NoClunk(old(relay.mesh.sent)) ==> NoClunk(relay.mesh.sent)
    {
      ghost var mid := relay.mesh.View();
      StillBelow(start, mid, off);
      var replied: bool := *;
      w := relay.PushWrite(buf, off);
      Through(start, mid, relay.mesh.View());
      if !replied {
        relay.mesh.Fault();
        w := -1;
      }
      attempt := attempt + 1;
    }
    if w >= 0 {
      relay.took := relay.took + [Block(off, |buf|)];
    }
  }

  /** The blocks follow one another from one offset to the other, each a chunk or what there is left of the
      file. */
  predicate Spans(blocks: seq<Block>, from: nat, to: nat, chunk: nat, size: nat) {
    if blocks == [] then from == to
    else
      var last := blocks[|blocks| - 1];
      && last.off < size && last.len == (if size - last.off > chunk then chunk else size - last.off)
      && last.off + last.len == to && Spans(blocks[..|blocks| - 1], from, last.off, chunk, size)
  }

  lemma SpansNothing(from: nat, chunk: nat, size: nat)
    ensures Spans([], from, from, chunk, size)
  {
  }

  lemma SpansMore(blocks: seq<Block>, from: nat, to: nat, n: nat, chunk: nat, size: nat)
    requires Spans(blocks, from, to, chunk, size) && to < size && n == if size - to > chunk then chunk else size - to
    ensures Spans(blocks + [Block(to, n)], from, to + n, chunk, size)
  {
    assert (blocks + [Block(to, n)])[..|blocks|] == blocks;
  }

  lemma StillBelow(a: Air, b: Air, off: nat)
    requires Grows(a, b) && off <= |Settled(a).slot|
    ensures off <= |Settled(b).slot|
  {
    hide Settle;
  }

  /** One pass of the streaming loop: the file position and the stream offset never part, and what the pass
      counts as written, block after block from the resume offset on, is in the settled slot. */
  method Stream(relay: Relay, file: Bytes, resumeOff: nat, chunk: nat)
    returns (off: nat, stalled: bool, ghost blocks: seq<Block>)
    requires relay.Valid() && relay.mesh.file == file && 0 < chunk
    requires resumeOff <= |relay.mesh.peer.slot| && resumeOff <= |file|
    modifies relay, relay.gw, relay.mesh
    ensures relay.Valid()
    ensures old(relay.mesh.steps) <= relay.mesh.steps && Grows(old(relay.mesh.View()), relay.mesh.View())
    ensures off <= |Settled(relay.mesh.View()).slot| && off <= |file|
    ensures stalled <==> off < |file|
    ensures relay.took == old(relay.took) + blocks && Spans(blocks, resumeOff, off, chunk, |file|)
    ensures relay.gw.active == old(relay.gw.active)
    ensures relay.mesh.faults >= old(relay.mesh.faults) + if stalled && relay.gw.active then 15 else 0
    ensures NoClunk(old(relay.mesh.sent)) ==> NoClunk(relay.mesh.sent)
  {
    hide Good, Exec, Disciplined, Grows, Settle, NoClunk, Over, Initial;
    ghost var start := relay.mesh.View();
    GrowsSelf(start);
    SpansNothing(resumeOff, chunk, |file|);
    hide Spans;
    SlotWithinSettled(start, relay.mesh.goal);
    var pos := resumeOff;          // fseek
    off := resumeOff;
    stalled, blocks := false, [];
    while pos < |file|
      invariant pos == off <= |file| && relay.Valid() && !stalled
      invariant relay.took == old(relay.took) + blocks && Spans(blocks, resumeOff, off, chunk, |file|)
      invariant relay.gw.active == old(relay.gw.active) && relay.mesh.faults >= old(relay.mesh.faults)
      invariant NoClunk(old(relay.mesh.sent)) ==> NoClunk(relay.mesh.sent)
      invariant old(relay.mesh.steps) <= relay.mesh.steps && Grows(start, relay.mesh.View())
      invariant off <= |Settled(relay.mesh.View()).slot|
    {
      var r := if |file| - pos > chunk then chunk else |file| - pos;
      var blk := file[pos..pos + r];
      pos := pos + r;              // fread
      ghost var mid := relay.mesh.View();
      var w := HostWrite(relay, blk, off);
      Through(start, mid, relay.mesh.View());
      if w < 0 {
        stalled := true;
        StillBelow(mid, relay.mesh.View(), off);
        break;
      }
      SpansMore(blocks, resumeOff, off, w, chunk, |file|);
      blocks := blocks + [Block(off, w)];
      off := off + w;
    }
  }

  lemma SlotWithinSettled(a: Air, goal: Bytes)
    requires Good(a, goal)
    ensures a.peer.slot <= Settled(a).slot <= goal
    ensures |Settled(a).slot| <= |a.peer.slot| + TILE * RequestRing.RING
  {
    SettleKeeps(a.peer, a.ring, goal);
  }

  /** 16384 bytes cover what eight ring slots can hold: backing up from any offset the settled peer has
      reached lands at or below what the peer has already written. */
  lemma BackupIsWritten(a: Air, goal: Bytes, off: nat)
    requires Good(a, goal) && off <= |Settled(a).slot|
    ensures ResumeFrom(off) <= |a.peer.slot|
  {
    SlotWithinSettled(a, goal);
  }

  lemma SlotGrows(a: Air, b: Air)
    requires Grows(a, b)
    ensures a.peer.slot <= b.peer.slot
  {
  }

  /** What became of a pass: it never came to stream, or it streamed these blocks, from where to where, and
      stalled there unless that was the end. */
  datatype PassRun = Missed | Ran(from: nat, off: nat, stalled: bool, blocks: seq<Block>)

  /** One pass of do_mesh_ota: target, stream from the resume offset, and where to resume if it stalls: 16384
      bytes back from where it got, or from the start. */
  method Pass(relay: Relay, file: Bytes, resumeOff: nat, chunk: nat)
    returns (completed: bool, resume: nat, ghost run: PassRun)
    requires relay.Valid() && relay.mesh.file == file && 0 < chunk
    requires resumeOff <= |relay.mesh.peer.slot| && resumeOff <= |file|
    modifies relay, relay.gw, relay.mesh
    ensures relay.Valid()
    ensures old(relay.mesh.steps) <= relay.mesh.steps && Grows(old(relay.mesh.View()), relay.mesh.View())
    ensures resume <= |relay.mesh.peer.slot| && resume <= |file|
    ensures run.Missed? ==> !completed && resume == resumeOff && relay.took == old(relay.took)
    ensures run.Ran? ==>
              && run.from == resumeOff && completed == !run.stalled && run.stalled == (run.off < |file|)
              && run.off <= |file| && (run.stalled ==> resume == if run.off > 16384 then run.off - 16384 else 0)
              && relay.took == old(relay.took) + run.blocks && Spans(run.blocks, resumeOff, run.off, chunk, |file|)
    ensures completed ==> Settled(relay.mesh.View()).slot == relay.mesh.goal && relay.gw.active
    ensures relay.mesh.faults >= old(relay.mesh.faults) + if completed then 0 else 1
    ensures NoClunk(old(relay.mesh.sent)) ==> NoClunk(relay.mesh.sent)
  {
    hide Exec, Disciplined, Settle, NoClunk, Good, Grows, Over, Initial, Spans;
    ghost var mesh, start := relay.mesh, relay.mesh.View();
    completed, resume, run := false, resumeOff, Missed;
    var targeted := relay.PushTarget();
    SlotGrows(start, mesh.View());
    var walked: bool := *;
    if targeted && !walked {
      relay.mesh.Fault();
    }
    if !targeted || !walked {
      return;
    }
    ghost var mid := mesh.View();
    var off, stalled;
    ghost var blocks;
    off, stalled, blocks := Stream(relay, file, resumeOff, chunk);
    run := Ran(resumeOff, off, stalled, blocks);
    Through(start, mid, mesh.View());
    SlotGrows(mid, mesh.View());
    relay.PushClunk();
    if !stalled && off >= |file| {
      GoalReached(mesh.View(), mesh.first.slot, file);
      completed := true;
    } else {
      BackupIsWritten(mesh.View(), mesh.goal, off);
      resume := ResumeFrom(off);
    }
  }

  // ---- the passes of a push ----

  /** Where the next pass resumes. */
  function ResumePoint(runs: seq<PassRun>): nat {
    if runs == [] then 0 else
    match runs[|runs| - 1]
    case Missed => ResumePoint(runs[..|runs| - 1])
    case Ran(_, off, _, _) => if off > 16384 then off - 16384 else 0
  }

  /** The last pass reached the end. */
  predicate Completed(runs: seq<PassRun>) {
    runs != [] && runs[|runs| - 1].Ran? && !runs[|runs| - 1].stalled
  }

  /** Each pass that streams begins at the resume point of those before it and covers the file from there to where
      it stalls; the first that reaches the end is the last. */
  predicate Resumes(runs: seq<PassRun>, size: nat, chunk: nat) {
    runs == [] ||
    (var before, last := runs[..|runs| - 1], runs[|runs| - 1];
     && Resumes(before, size, chunk) && !Completed(before)
     && (last.Ran? ==>
           && last.from == ResumePoint(before) && last.off <= size && last.stalled == (last.off < size)
           && Spans(last.blocks, last.from, last.off, chunk, size)))
  }

  function BlocksOf(runs: seq<PassRun>): seq<Block> {
    if runs == [] then []
    else BlocksOf(runs[..|runs| - 1]) + if runs[|runs| - 1].Ran? then runs[|runs| - 1].blocks else []
  }

  /** How many passes streamed and stalled. */
  function Stalls(runs: seq<PassRun>): nat {
    if runs == [] then 0
    else Stalls(runs[..|runs| - 1]) + if runs[|runs| - 1].Ran? && runs[|runs| - 1].stalled then 1 else 0
  }

  function Misses(runs: seq<PassRun>): nat {
    if runs == [] then 0 else Misses(runs[..|runs| - 1]) + if runs[|runs| - 1].Missed? then 1 else 0
  }

  /** Every stalled pass got this far beyond where it began. */
  predicate Gains(runs: seq<PassRun>, gain: nat) {
    forall k | 0 <= k < |runs| && runs[k].Ran? && runs[k].stalled :: runs[k].off >= runs[k].from + gain
  }

  /** A push moves on: if every pass that streams and stalls gets more than 16384 bytes beyond its resume offset,
      the resume point after k of them is at least k times what they got beyond that, and 16384 bytes and more
      of the file are left behind it. */
  lemma {:induction false} ResumePointMoves(runs: seq<PassRun>, size: nat, chunk: nat, gain: nat)
    requires Resumes(runs, size, chunk) && !Completed(runs) && Gains(runs, gain) && gain > 16384
    ensures Stalls(runs) * (gain - 16384) <= ResumePoint(runs)
    ensures Stalls(runs) > 0 ==> ResumePoint(runs) + 16384 < size
  {
    if runs != [] {
      var before, last := runs[..|runs| - 1], runs[|runs| - 1];
      assert forall k | 0 <= k < |before| :: before[k] == runs[k];
      ResumePointMoves(before, size, chunk, gain);
      if last.Ran? {
        assert last.off >= last.from + gain;
        assert Stalls(runs) * (gain - 16384) == Stalls(before) * (gain - 16384) + (gain - 16384);
      }
    }
  }

  lemma {:induction false} EveryPassCounts(runs: seq<PassRun>, size: nat, chunk: nat)
    requires Resumes(runs, size, chunk)
    ensures Misses(runs) + Stalls(runs) + (if Completed(runs) then 1 else 0) == |runs|
  {
    if runs != [] {
      EveryPassCounts(runs[..|runs| - 1], size, chunk);
    }
  }

  /** So with passes enough for the whole file at that pace, those that never came to stream not counted, the last
      one completes it. */
  lemma PushCompletes(runs: seq<PassRun>, size: nat, chunk: nat, gain: nat)
    requires Resumes(runs, size, chunk) && Gains(runs, gain) && gain > 16384
    requires (|runs| - Misses(runs)) * (gain - 16384) + 16384 >= size && |runs| > Misses(runs)
    ensures Completed(runs)
  {
    if !Completed(runs) {
      EveryPassCounts(runs, size, chunk);
      ResumePointMoves(runs, size, chunk, gain);
    }
  }

  /** do_mesh_ota, whatever the peer's slot holds at first. Every pass resumes at or below the peer's written
      position (Stream demands it), 16384 bytes behind where the last one stalled; passes go on until one reaches
      the end or the allowance is used up. The commit is asked for only when the settled slot is the goal, and
      success means it went out; the file is then finalized if and only if a copy of the clunk lands and the slot
      held a beginning of it at first, and without a fault underneath a copy does. Nor is there a failure without
      one. At every moment of the run the peer is safe. */
  method MeshOta(relay: Relay, file: Bytes, chunk0: int, maxPasses: int) returns (rc: int, ghost runs: seq<PassRun>)
    requires relay.Valid() && relay.mesh.file == file
    modifies relay, relay.gw, relay.mesh
    ensures relay.Valid() && relay.mesh.goal == Over(relay.mesh.first.slot, file)
    ensures old(relay.mesh.steps) <= relay.mesh.steps
    ensures Disciplined(relay.mesh.first, relay.mesh.steps, relay.mesh.goal)
    ensures relay.mesh.View() == Exec(relay.mesh.first, relay.mesh.steps)
    ensures forall k | 0 <= k <= |relay.mesh.steps| :: SafeAt(relay.mesh.first, relay.mesh.steps, relay.mesh.goal, k)
    ensures old(relay.mesh.peer.slot) <= relay.mesh.peer.slot <= relay.mesh.goal
    ensures Resumes(runs, |file|, if 0 < chunk0 <= 1024 then chunk0 else 1024)
    ensures relay.took == old(relay.took) + BlocksOf(runs)
    ensures Completed(runs) || |runs| == if maxPasses > 0 then maxPasses else 0
    ensures rc == 0 ==> Completed(runs)
    ensures rc == 0 ==> Settled(relay.mesh.View()).slot == relay.mesh.goal && !NoClunk(relay.mesh.sent)
    ensures !NoClunk(relay.mesh.sent) ==> Settled(relay.mesh.View()).slot == relay.mesh.goal
    ensures rc != 0 && maxPasses > 0 ==> relay.mesh.faults > old(relay.mesh.faults)
    ensures rc == 0 && NoClunk(old(relay.mesh.sent)) ==>
              (Settled(relay.mesh.View()).committed == Some(file)
               <==> ClunkLanded(relay.mesh.steps) && relay.mesh.first.slot <= file)
    ensures rc == 0 && NoClunk(old(relay.mesh.sent)) && relay.mesh.faults == old(relay.mesh.faults) ==>
              Settled(relay.mesh.View()).committed == Some(relay.mesh.goal)
  {
    hide Exec, Disciplined, Settle, NoClunk, Good, Grows, ClunkLanded, Over, Initial, SafeAt;
    hide Resumes, ResumePoint, BlocksOf, Completed;
    ghost var mesh, goal, start := relay.mesh, relay.mesh.goal, relay.mesh.View();
    OverIsFile(mesh.first.slot, file);
    var chunk := if chunk0 <= 0 || chunk0 > 1024 then 1024 else chunk0;
    GrowsSelf(start);
    NoRuns(|file|, chunk);
    var resumeOff: nat := 0;
    var completed := false;
    var pass := 0;
    runs := [];
    while pass < maxPasses && !completed
      invariant relay.Valid() && old(mesh.steps) <= mesh.steps && Grows(start, mesh.View())
      invariant resumeOff <= |mesh.peer.slot| && resumeOff <= |file|
      invariant completed ==> Settled(mesh.View()).slot == goal && relay.gw.active
      invariant mesh.faults >= old(mesh.faults) + if completed || pass == 0 then 0 else 1
      invariant pass == 0 ==> !completed
      invariant NoClunk(old(mesh.sent)) ==> NoClunk(mesh.sent)
      invariant |runs| == pass && pass <= (if maxPasses > 0 then maxPasses else 0)
      invariant Resumes(runs, |file|, chunk) && completed == Completed(runs)
      invariant !completed ==> resumeOff == ResumePoint(runs)
      invariant relay.took == old(relay.took) + BlocksOf(runs)
      decreases maxPasses - pass
    {
      pass := pass + 1;
      ghost var mid := mesh.View();
      ghost var run;
      completed, resumeOff, run := Pass(relay, file, resumeOff, chunk);
      OneMoreRun(runs, run, |file|, chunk);
      runs := runs + [run];
      Through(start, mid, mesh.View());
    }
    rc := 1;
    if completed {
      ghost var mid := mesh.View();
      var committed := relay.PushCommit();
      Through(start, mid, mesh.View());
      rc := if committed then 0 else 1;
    }
    SlotWithinSettled(mesh.View(), goal);
    if !NoClunk(mesh.sent) {
      ClunkedIsWhole(mesh.View(), goal);
    }
    CommittedIsGoal(mesh.View(), goal);
    SlotGrows(start, mesh.View());
    SafeThroughout(mesh.first, mesh.steps, file);
  }

  lemma NoRuns(size: nat, chunk: nat)
    ensures Resumes([], size, chunk) && !Completed([]) && ResumePoint([]) == 0 && BlocksOf([]) == []
  {
  }

  lemma OneMoreRun(runs: seq<PassRun>, run: PassRun, size: nat, chunk: nat)
    requires Resumes(runs, size, chunk) && !Completed(runs)
    requires run.Ran? ==> && run.from == ResumePoint(runs) && run.off <= size && run.stalled == (run.off < size)
                          && Spans(run.blocks, run.from, run.off, chunk, size)
    ensures var more := runs + [run];
            && Resumes(more, size, chunk) && (Completed(more) <==> run.Ran? && !run.stalled)
            && BlocksOf(more) == BlocksOf(runs) + (if run.Ran? then run.blocks else [])
            && ResumePoint(more) == (if run.Missed? then ResumePoint(runs)
                                     else if run.off > 16384 then run.off - 16384 else 0)
  {
    hide Spans;
    assert (runs + [run])[..|runs|] == runs;
  }

  lemma SafeThroughout(first: Peer, steps: seq<Step>, file: Bytes)
    requires Initial(first) && Disciplined(first, steps, Over(first.slot, file))
    ensures forall k | 0 <= k <= |steps| :: SafeAt(first, steps, Over(first.slot, file), k)
  {
    hide SafeAt;
    forall k | 0 <= k <= |steps|
      ensures SafeAt(first, steps, Over(first.slot, file), k)
    {
      StartsOk(first, file);
      RunIsSafe(first, steps, Over(first.slot, file), k);
    }
  }

  lemma CommittedIsGoal(a: Air, goal: Bytes)
    requires Good(a, goal)
    ensures Settled(a).committed.Some? ==> Settled(a).committed == Some(goal)
  {
    SettleKeeps(a.peer, a.ring, goal);
  }
}
