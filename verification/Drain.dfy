/** aether_net_drain_peer (dect_mesh/src/aether_net.c): a whole 9P session with a peer, run in-process over
    tag-matched RPC, that collects the peer's pending telemetry into one buffer. */
module Drain {
  import opened Wire
  import opened TagRpc

  const TWO31 := 0x8000_0000

  /** What AETHER_MAX_MSG can be: the size of a buffer, measured in an int, that holds a Tread's reply header. */
  type MsgSize = n: nat | 16 <= n < 0x8000_0000 witness 16

  const SETUP := 4
  const MAX_READS := 16

  /** "9P2000", "t", "mflt" */
  const VERSION: Bytes := [57, 80, 50, 48, 48, 48]
  const UNAME: Bytes := [116]
  const MFLT: Bytes := [109, 102, 108, 116]

  const TAGS: seq<u16> := [NOTAG, 1, 2, 3, 4, 5, 6, 7, 8, 9, 10, 11, 12, 13, 14, 15, 16, 17, 18, 19]

  /** The session's k-th call; `maxMsg` is the datagram capacity. */
  function Request(k: nat, maxMsg: MsgSize): TMsg
    requires k < SETUP + MAX_READS
  {
    if k == 0 then Tversion(maxMsg, VERSION)
    else if k == 1 then Tattach(1, 0, 0xffff_ffff, UNAME, [])
    else if k == 2 then Twalk(2, 0, 2, [DEV, MFLT])
    else if k == 3 then Topen(3, 2, 0)
    else Tread(k, 2, 0, maxMsg - 16)
  }

  lemma RequestTag(k: nat, maxMsg: MsgSize)
    requires k < SETUP + MAX_READS
    ensures var t := Request(k, maxMsg);
            Frameable(t) && |Encode(t)| >= 7 && FrameTag(Encode(t)) == TagOf(t) == TAGS[k]
  {
    var t := Request(k, maxMsg);
    hide Np32;
    PutTwoNames(DEV, MFLT);
    assert Frameable(t);
    Ng16OfNp16(TagOf(t), Fields(t));
    assert Encode(t)[5..7] == Np16(TagOf(t));
    assert Np16(TagOf(t)) + [] == Np16(TagOf(t));
    Ng16OfNp16(TagOf(t), []);
  }

  /** The requests as they go out: version, attach, the walk to dev/mflt, open for reading; and a read of fid 2 at
      offset 0. */
  lemma VersionOnTheWire(maxMsg: MsgSize)
    ensures Encode(Request(0, maxMsg))
         == [19, 0, 0, 0] + ([100] + ([255, 255] + (Np32(maxMsg) + [6, 0, 57, 80, 50, 48, 48, 48])))
  {
    assert PutStr(VERSION) == [6, 0, 57, 80, 50, 48, 48, 48] && Np32(19) == [19, 0, 0, 0];
    assert Np16(NOTAG) == [255, 255];
    hide PutStr, Np32, Np16;
  }

  lemma AttachOnTheWire(maxMsg: MsgSize)
    ensures Encode(Request(1, maxMsg))
         == [20, 0, 0, 0] + ([104] + ([1, 0] + ([0, 0, 0, 0] + ([255, 255, 255, 255] + ([1, 0, 116] + [0, 0])))))
  {
    assert PutStr(UNAME) == [1, 0, 116] && PutStr([]) == [0, 0] && Np16(1) == [1, 0] && Np32(20) == [20, 0, 0, 0];
    assert Np32(0) == [0, 0, 0, 0] && Np32(0xffff_ffff) == [255, 255, 255, 255];
    hide PutStr, Np32, Np16;
  }

  lemma WalkOnTheWire(maxMsg: MsgSize)
    ensures var t := Request(2, maxMsg);
            && Frameable(t)
            && Encode(t) == [28, 0, 0, 0] + ([110] + ([2, 0] + ([0, 0, 0, 0] + ([2, 0, 0, 0] + ([2, 0]
                            + ([3, 0, 100, 101, 118] + [4, 0, 109, 102, 108, 116]))))))
  {
    PutTwoNames(DEV, MFLT);
    assert PutStr(DEV) == [3, 0, 100, 101, 118] && PutStr(MFLT) == [4, 0, 109, 102, 108, 116];
    assert Np16(2) == [2, 0] && Np32(28) == [28, 0, 0, 0] && Np32(0) == [0, 0, 0, 0] && Np32(2) == [2, 0, 0, 0];
    hide PutStr, PutNames, Np16, Np32;
  }

  lemma OpenOnTheWire(maxMsg: MsgSize)
    ensures Encode(Request(3, maxMsg)) == [12, 0, 0, 0] + ([112] + ([3, 0] + ([2, 0, 0, 0] + [0])))
  {
    assert Np16(3) == [3, 0] && Np32(12) == [12, 0, 0, 0] && Np32(2) == [2, 0, 0, 0];
    hide Np16, Np32;
  }

  lemma ReadOnTheWire(k: nat, maxMsg: MsgSize)
    requires SETUP <= k < SETUP + MAX_READS
    ensures Encode(Request(k, maxMsg))
         == [23, 0, 0, 0] + ([116] + ([k, 0] + ([2, 0, 0, 0] + ([0, 0, 0, 0, 0, 0, 0, 0] + Np32(maxMsg - 16)))))
  {
    assert Np64(0) == [0, 0, 0, 0, 0, 0, 0, 0] && Np32(2) == [2, 0, 0, 0] && Np16(k) == [k, 0];
    assert Np32(23) == [23, 0, 0, 0];
    hide Np64, Np32, Np16;
  }

  /** The set-up takes a peer's session to its dev/mflt open for reading as fid 2, and every Tread is on it. */
  lemma SetupOpensMflt(maxMsg: MsgSize, k: nat)
    requires SETUP <= k < SETUP + MAX_READS
    ensures var stage1 := Advance(0, Request(0, maxMsg), MFLT, 0);
            var stage2 := Advance(stage1, Request(1, maxMsg), MFLT, 0);
            var stage3 := Advance(stage2, Request(2, maxMsg), MFLT, 0);
            Advance(stage3, Request(3, maxMsg), MFLT, 0) == 4
    ensures var t := Request(k, maxMsg); t.Tread? && t.fid == 2 && Advance(4, t, MFLT, 0) == 4
  {
  }

  // ---- one reply ----

  /** The p-th read as m9_rpc leaves it in the reply buffer. */
  function Reply(ch: Channel, p: nat, maxMsg: MsgSize): (b: Bytes)
    ensures |b| <= maxMsg
  {
    match ch.read(p)
    case Datagram(b) => if |b| > maxMsg then b[..maxMsg] else b
    case _ => []
  }

  function Count(b: Bytes): u32
    requires |b| >= 11
  {
    Ng32(b[7..11])
  }

  /** A 32-bit value as an int has it. */
  function Signed(n: u32): int { if n >= TWO31 then n - 0x1_0000_0000 else n }

  /** What the two clamps leave of a count, both comparing as int: the length the copy is given. */
  function Clamped(n: u32, avail: nat, room: nat): u32
    requires avail < TWO31 && room < TWO31
  {
    var m := if Signed(n) > avail then avail else n;
    if Signed(m) > room then room else m
  }

  /** The copy stays inside the reply and the output buffer if and only if the count is below 2^31; and then it
      is the count, clamped to what the reply carries and what the output has room for. */
  lemma ClampExactly(n: u32, avail: nat, room: nat)
    requires avail < TWO31 && room < TWO31
    ensures Clamped(n, avail, room) <= avail && Clamped(n, avail, room) <= room <==> n < TWO31
    ensures n < TWO31 ==>
              var m := if n > avail then avail else n;
              Clamped(n, avail, room) == if m > room then room else m
  {
  }

  predicate Oversized(b: Bytes) { |b| >= 11 && Count(b) >= TWO31 }

  /** The data of an Rread, as far as the datagram carries it. */
  function Payload(b: Bytes): Bytes {
    if |b| < 11 then [] else b[11..][..if Count(b) > |b| - 11 then |b| - 11 else Count(b)]
  }

  // ---- the session ----

  predicate IsReply(ch: Channel, k: nat, o: Outcome, maxMsg: MsgSize)
    requires k < SETUP + MAX_READS
  {
    && o.found.Some? && |Reply(ch, o.found.value, maxMsg)| >= 7
    && Reply(ch, o.found.value, maxMsg)[4] == TypeOf(Request(k, maxMsg)) + 1
  }

  /** A reply the Tread loop goes on to copy from. */
  predicate Keeps(b: Bytes) { Oversized(b) || Payload(b) != [] }

  function Call(ch: Channel, k: nat, s: nat, r: nat): Outcome
    requires k < SETUP + MAX_READS
  {
    Attempts(ch, M9_RPC, TAGS[k], s, r, M9_RPC.attempts)
  }

  /** From call k on: the reads (by ordinal) whose replies are kept, up to the first call that fails or brings
      nothing, or to an oversized one, after which nothing is defined. */
  function Batches(ch: Channel, k: nat, s: nat, r: nat, maxMsg: MsgSize): (picks: seq<nat>)
    requires SETUP <= k <= SETUP + MAX_READS
    ensures |picks| <= SETUP + MAX_READS - k
    ensures forall i | 0 <= i < |picks| - 1 :: !Oversized(Reply(ch, picks[i], maxMsg))
    decreases SETUP + MAX_READS - k
  {
    if k == SETUP + MAX_READS then []
    else
      var o := Call(ch, k, s, r);
      if !IsReply(ch, k, o, maxMsg) || !Keeps(Reply(ch, o.found.value, maxMsg)) then []
      else if Oversized(Reply(ch, o.found.value, maxMsg)) then [o.found.value]
      else [o.found.value] + Batches(ch, k + 1, o.sends, o.gets, maxMsg)
  }

  /** The same for the whole session: nothing unless each set-up call gets its own kind of reply. */
  function SessionBatches(ch: Channel, k: nat, s: nat, r: nat, maxMsg: MsgSize): (picks: seq<nat>)
    requires k <= SETUP
    ensures |picks| <= MAX_READS
    ensures forall i | 0 <= i < |picks| - 1 :: !Oversized(Reply(ch, picks[i], maxMsg))
    decreases SETUP - k
  {
    if k == SETUP then Batches(ch, k, s, r, maxMsg)
    else
      var o := Call(ch, k, s, r);
      if IsReply(ch, k, o, maxMsg) then SessionBatches(ch, k + 1, o.sends, o.gets, maxMsg) else []
  }

  /** A reply of another type than its call's, an error reply say, ends the session: at the set-up with nothing
      collected, at a Tread with what is collected by then. */
  lemma OtherTypeEnds(ch: Channel, k: nat, s: nat, r: nat, maxMsg: MsgSize)
    requires k < 20 && Call(ch, k, s, r).found.Some?
    requires var reply := Reply(ch, Call(ch, k, s, r).found.value, maxMsg);
             |reply| > 4 && reply[4] != if k < 4 then [101, 105, 111, 113][k] else 117
    ensures if k < 4 then SessionBatches(ch, k, s, r, maxMsg) == [] else Batches(ch, k, s, r, maxMsg) == []
  {
    hide Call, Reply;
  }

  function Gathered(ch: Channel, picks: seq<nat>, maxMsg: MsgSize): Bytes {
    if picks == [] then [] else Payload(Reply(ch, picks[0], maxMsg)) + Gathered(ch, picks[1..], maxMsg)
  }

  lemma {:induction false} GatheredConcat(ch: Channel, a: seq<nat>, b: seq<nat>, maxMsg: MsgSize)
    ensures Gathered(ch, a + b, maxMsg) == Gathered(ch, a, maxMsg) + Gathered(ch, b, maxMsg)
  {
    hide Payload;
    if a == [] {
      assert a + b == b;
    } else {
      assert (a + b)[1..] == a[1..] + b;
      GatheredConcat(ch, a[1..], b, maxMsg);
    }
  }

  lemma GatheredSnoc(ch: Channel, picks: seq<nat>, p: nat, maxMsg: MsgSize)
    ensures Gathered(ch, picks + [p], maxMsg) == Gathered(ch, picks, maxMsg) + Payload(Reply(ch, p, maxMsg))
  {
    hide Payload;
    GatheredConcat(ch, picks, [p], maxMsg);
    assert [p][1..] == [] && Gathered(ch, [p], maxMsg) == Payload(Reply(ch, p, maxMsg)) + [];
  }

  lemma OwnReply(ch: Channel, origin: nat -> nat, k: nat, s: nat, r: nat)
    requires k < SETUP + MAX_READS && OnlyReplies(ch, TAGS, origin)
    ensures var o := Call(ch, k, s, r);
            o.found.Some? ==> origin(o.found.value) == k && r <= o.found.value < o.gets
  {
    hide Attempts, OnlyReplies;
    CallGetsItsOwnReply(ch, M9_RPC, TAGS, origin, k, s, r);
  }

  /** The i-th pick was made for call k + i, and later picks were read later. */
  ghost predicate InTurn(origin: nat -> nat, picks: seq<nat>, k: nat, r: nat) {
    && (forall i | 0 <= i < |picks| :: origin(picks[i]) == k + i && picks[i] >= r)
    && (forall i, j | 0 <= i < j < |picks| :: picks[i] < picks[j])
  }

  lemma InTurnCons(origin: nat -> nat, p: nat, rest: seq<nat>, k: nat, r: nat, r': nat)
    requires InTurn(origin, rest, k + 1, r') && r <= p < r' && origin(p) == k
    ensures InTurn(origin, [p] + rest, k, r)
  {
    var picks := [p] + rest;
    forall i | 0 <= i < |picks|
      ensures origin(picks[i]) == k + i && picks[i] >= r
    {
      assert i > 0 ==> picks[i] == rest[i - 1];
    }
  }

  /** When the peer sends nothing but replies to this session's calls, the i-th batch is a reply to the
      i-th Tread and to no other call: so no reply is collected twice and none out of order, whatever the
      channel loses, repeats or delays. */
  lemma {:induction false} BatchesAnswerTheirReads(ch: Channel, origin: nat -> nat, k: nat, s: nat, r: nat,
                                                   maxMsg: MsgSize)
    requires SETUP <= k <= SETUP + MAX_READS && OnlyReplies(ch, TAGS, origin)
    ensures InTurn(origin, Batches(ch, k, s, r, maxMsg), k, r)
    decreases SETUP + MAX_READS - k
  {
    hide Call, Keeps, Oversized, Reply, OnlyReplies;
    if k < SETUP + MAX_READS {
      hide InTurn, Request, TypeOf;
      var o := Call(ch, k, s, r);
      var picks := Batches(ch, k, s, r, maxMsg);
      OwnReply(ch, origin, k, s, r);
      BatchesAnswerTheirReads(ch, origin, k + 1, o.sends, o.gets, maxMsg);
      if picks == [] {
        NoPicks(origin, k, r);
      } else if Oversized(Reply(ch, o.found.value, maxMsg)) {
        NoPicks(origin, k + 1, o.gets);
        InTurnCons(origin, o.found.value, [], k, r, o.gets);
        assert picks == [o.found.value] + [];
      } else {
        InTurnCons(origin, o.found.value, Batches(ch, k + 1, o.sends, o.gets, maxMsg), k, r, o.gets);
      }
    }
  }

  lemma NoPicks(origin: nat -> nat, k: nat, r: nat)
    ensures InTurn(origin, [], k, r)
  {
  }

  lemma {:induction false} SessionAnswersItsReads(ch: Channel, origin: nat -> nat, k: nat, s: nat, r: nat,
                                                  maxMsg: MsgSize)
    requires k <= SETUP && OnlyReplies(ch, TAGS, origin)
    ensures InTurn(origin, SessionBatches(ch, k, s, r, maxMsg), SETUP, 0)
    decreases SETUP - k
  {
    hide Call, Keeps, Oversized, Reply, OnlyReplies, Request, TypeOf;
    if k == SETUP {
      BatchesAnswerTheirReads(ch, origin, k, s, r, maxMsg);
    } else {
      var o := Call(ch, k, s, r);
      if SessionBatches(ch, k, s, r, maxMsg) != [] {
        SessionAnswersItsReads(ch, origin, k + 1, o.sends, o.gets, maxMsg);
      }
    }
  }

  // ---- what it leaves in the buffer ----

  /** How much of a buffer of this size the loop uses: its size is compared as an int. */
  function Usable(cap: u32): nat { if cap >= TWO31 then 0 else cap }

  /** Some of the batches, whole, and then at most one cut where the buffer ends. */
  ghost predicate Collected(ch: Channel, picks: seq<nat>, out: Bytes, room: nat, maxMsg: MsgSize) {
    && |out| <= (if room > 0 then room - 1 else 0)
    && out <= Gathered(ch, picks, maxMsg)
    && (out == Gathered(ch, picks, maxMsg) || |out| + 8 >= room)
    && (|out| == room - 1 || exists n: nat | n <= |picks| :: out == Gathered(ch, picks[..n], maxMsg))
  }

  /** Among the replies the loop keeps, before the buffer is within eight bytes of full, is an oversized one. */
  predicate KeepsOversized(ch: Channel, picks: seq<nat>, room: nat, maxMsg: MsgSize) {
    && picks != [] && Oversized(Reply(ch, picks[|picks| - 1], maxMsg))
    && |Gathered(ch, picks[..|picks| - 1], maxMsg)| + 8 < room
  }

  /** `NoSlot` is ENOSPC. `Overrun`: the next copy reaches outside its buffers, and nothing is defined from
      there on; `before` is what was collected by then. */
  datatype Drained = NoSlot | Filled(out: Bytes) | Overrun(before: Bytes)

  /** What a session that keeps these replies comes to. */
  ghost predicate Outcomes(ch: Channel, picks: seq<nat>, d: Drained, room: nat, maxMsg: MsgSize) {
    && !d.NoSlot? && (d.Overrun? <==> KeepsOversized(ch, picks, room, maxMsg))
    && (d.Filled? ==> Collected(ch, picks, d.out, room, maxMsg))
    && (d.Overrun? ==> d.before == Gathered(ch, picks[..|picks| - 1], maxMsg) && |d.before| + 8 < room)
  }

  /** aether_net_drain_peer: an error when no conversation slot is free. Otherwise the session stays in its
      buffers if and only if no reply it keeps carries a count of 2^31 or more; and then what lands in the
      output is the data of the session's replies, in order, complete unless the buffer is within eight bytes
      of full, and never more than leaves room for a terminator. */
  method DrainPeer(ch: Channel, slotFree: bool, cap: u32, maxMsg: MsgSize) returns (d: Drained)
    ensures d.NoSlot? <==> !slotFree
    ensures slotFree ==> Outcomes(ch, SessionBatches(ch, 0, 0, 0, maxMsg), d, Usable(cap), maxMsg)
  {
    hide Outcomes, SessionBatches;
    if !slotFree {
      return NoSlot;
    }
    d := Session(ch, cap, maxMsg);
    ASlotWasFree(ch, SessionBatches(ch, 0, 0, 0, maxMsg), d, Usable(cap), maxMsg);
  }

  lemma ASlotWasFree(ch: Channel, picks: seq<nat>, d: Drained, room: nat, maxMsg: MsgSize)
    requires Outcomes(ch, picks, d, room, maxMsg)
    ensures !d.NoSlot?
  {
  }

  /** The session on the conversation it got. */
  method Session(ch: Channel, cap: u32, maxMsg: MsgSize) returns (d: Drained)
    ensures Outcomes(ch, SessionBatches(ch, 0, 0, 0, maxMsg), d, Usable(cap), maxMsg)
  {
    hide Attempts, Keeps, Oversized, Batches, Outcomes;
    ghost var picks := SessionBatches(ch, 0, 0, 0, maxMsg);
    var s, r, k := 0, 0, 0;
    while k < SETUP
      invariant k <= SETUP
      invariant SessionBatches(ch, k, s, r, maxMsg) == picks
    {
      RequestTag(k, maxMsg);
      var o := Rpc(ch, M9_RPC, Encode(Request(k, maxMsg)), s, r);
      AttemptsHonest(ch, M9_RPC, TAGS[k], s, r, M9_RPC.attempts);
      if o.found.None? || Reply(ch, o.found.value, maxMsg)[4] != TypeOf(Request(k, maxMsg)) + 1 {
        NothingCollected(ch, Usable(cap), maxMsg);
        return Filled([]);
      }
      s, r, k := o.sends, o.gets, k + 1;
    }
    d := ReadLoop(ch, s, r, cap, maxMsg);
  }

  lemma NothingCollected(ch: Channel, room: nat, maxMsg: MsgSize)
    ensures Outcomes(ch, [], Filled([]), room, maxMsg)
  {
    var none: seq<nat> := [];
    assert none[..0] == [];
  }

  /** One Tread: its reply when that is an Rread with a count, or nothing. */
  method ReadBatch(ch: Channel, k: nat, s: nat, r: nat, maxMsg: MsgSize)
    returns (reply: Bytes, p: nat, s': nat, r': nat)
    requires SETUP <= k < SETUP + MAX_READS
    ensures !Keeps(reply) ==> Batches(ch, k, s, r, maxMsg) == []
    ensures Keeps(reply) ==>
              && reply == Reply(ch, p, maxMsg)
              && Batches(ch, k, s, r, maxMsg)
                 == [p] + if Oversized(reply) then [] else Batches(ch, k + 1, s', r', maxMsg)
    ensures reply == [] || 11 <= |reply| <= maxMsg
  {
    hide Attempts, Encode;
    RequestTag(k, maxMsg);
    var o := Rpc(ch, M9_RPC, Encode(Request(k, maxMsg)), s, r);
    AttemptsHonest(ch, M9_RPC, TAGS[k], s, r, M9_RPC.attempts);
    reply, p, s', r' := [], 0, o.sends, o.gets;
    if o.found.Some? {
      p := o.found.value;
      var held := Reply(ch, p, maxMsg);
      if |held| >= 11 && held[4] == 117 {
        reply := held;
      }
    }
  }

  /** After i replies: no count among them was oversized, and what they brought is there whole, or cut where
      the buffer ends. */
  ghost predicate Cut(ch: Channel, picks: seq<nat>, i: nat, out: Bytes, room: nat, maxMsg: MsgSize) {
    && i <= |picks| && (forall j | 0 <= j < i :: !Oversized(Reply(ch, picks[j], maxMsg)))
    && |out| <= (if room > 0 then room - 1 else 0)
    && out <= Gathered(ch, picks[..i], maxMsg)
    && (out == Gathered(ch, picks[..i], maxMsg) || |out| == room - 1)
  }

  lemma NoneYet(ch: Channel, picks: seq<nat>, room: nat, maxMsg: MsgSize)
    ensures Cut(ch, picks, 0, [], room, maxMsg)
  {
    assert picks[..0] == [];
  }

  /** What the clamped count makes of one reply. */
  lemma CopyLength(reply: Bytes, left: nat, n: u32, maxMsg: MsgSize)
    requires 11 <= |reply| <= maxMsg && 0 < left < TWO31
    requires n == Clamped(Count(reply), |reply| - 11, left)
    ensures n == 0 <==> !Keeps(reply)
    ensures n <= |reply| - 11 && n <= left <==> !Oversized(reply)
    ensures !Oversized(reply) ==>
              reply[11..11 + n] == if |Payload(reply)| > left then Payload(reply)[..left] else Payload(reply)
  {
    hide Count;
    var avail := |reply| - 11;
    ClampExactly(Count(reply), avail, left);
    assert reply[11..11 + avail] == reply[11..];
    if !Oversized(reply) {
      var m := if Count(reply) > avail then avail else Count(reply);
      assert Payload(reply) == reply[11..][..m] == reply[11..11 + m];
    }
  }

  lemma OneMore(ch: Channel, picks: seq<nat>, i: nat, out: Bytes, data: Bytes, room: nat, maxMsg: MsgSize)
    requires Cut(ch, picks, i, out, room, maxMsg) && |out| + 8 < room
    requires i < |picks| && !Oversized(Reply(ch, picks[i], maxMsg))
    requires var all := Payload(Reply(ch, picks[i], maxMsg));
             data == if |all| > room - 1 - |out| then all[..room - 1 - |out|] else all
    ensures Cut(ch, picks, i + 1, out + data, room, maxMsg)
  {
    hide Payload, Oversized, Reply;
    assert picks[..i + 1] == picks[..i] + [picks[i]];
    GatheredSnoc(ch, picks[..i], picks[i], maxMsg);
  }

  lemma OverrunIs(ch: Channel, picks: seq<nat>, i: nat, out: Bytes, room: nat, maxMsg: MsgSize)
    requires Cut(ch, picks, i, out, room, maxMsg) && |out| + 8 < room
    requires i == |picks| - 1 && Oversized(Reply(ch, picks[i], maxMsg))
    ensures Outcomes(ch, picks, Overrun(out), room, maxMsg)
  {
    hide Gathered, Oversized, Reply;
  }

  lemma FilledIs(ch: Channel, picks: seq<nat>, i: nat, out: Bytes, room: nat, maxMsg: MsgSize)
    requires Cut(ch, picks, i, out, room, maxMsg) && (i == |picks| || |out| + 8 >= room)
    ensures Outcomes(ch, picks, Filled(out), room, maxMsg)
  {
    hide Gathered, Oversized, Reply;
    assert picks == picks[..i] + picks[i..] && picks[..|picks|] == picks;
    GatheredConcat(ch, picks[..i], picks[i..], maxMsg);
    if i < |picks| {
      var last := |picks| - 1;
      assert picks[..last] == picks[..i] + picks[i..last];
      GatheredConcat(ch, picks[..i], picks[i..last], maxMsg);
    }
  }

  /** Its Tread loop, with both clamps as they compare. */
  method ReadLoop(ch: Channel, s0: nat, r0: nat, cap: u32, maxMsg: MsgSize) returns (d: Drained)
    ensures Outcomes(ch, Batches(ch, SETUP, s0, r0, maxMsg), d, Usable(cap), maxMsg)
  {
    hide Payload, Keeps, Oversized, Batches, Gathered, Outcomes, Reply, Count, Cut;
    ghost var picks, room := Batches(ch, SETUP, s0, r0, maxMsg), Usable(cap);
    var out: Bytes := [];
    var s, r, i := s0, r0, 0;
    NoneYet(ch, picks, room, maxMsg);
    while i < MAX_READS && |out| < Signed(cap) - 8
      invariant i <= MAX_READS && i <= |picks|
      invariant Batches(ch, SETUP + i, s, r, maxMsg) == picks[i..]
      invariant Cut(ch, picks, i, out, room, maxMsg)
    {
      var reply, p, s', r' := ReadBatch(ch, SETUP + i, s, r, maxMsg);
      if reply == [] {
        EmptyIsNotKept();
        break;
      }
      var avail, left := |reply| - 11, cap - 1 - |out|;
      var n := Count(reply);
      if Signed(n) > avail {
        n := avail;
      }
      if Signed(n) > left {
        n := left;
      }
      CopyLength(reply, left, n, maxMsg);
      if n == 0 {
        break;
      }
      assert picks[i] == picks[i..][0] == p;
      if n > avail || n > left {
        OverrunIs(ch, picks, i, out, room, maxMsg);
        return Overrun(out);
      }
      OneMore(ch, picks, i, out, reply[11..11 + n], room, maxMsg);
      out := out + reply[11..11 + n];
      s, r, i := s', r', i + 1;
    }
    FilledIs(ch, picks, i, out, room, maxMsg);
    d := Filled(out);
  }

  lemma EmptyIsNotKept()
    ensures !Keeps([])
  {
  }

  // ---- a run that does not stay in its buffers ----

  /** Bare replies to the set-up calls, then an Rread for the first Tread whose count is 2^31 and which
      carries one byte. */
  const RVERSION: Bytes := [7, 0, 0, 0, 101, 255, 255]
  const RATTACH: Bytes := [7, 0, 0, 0, 105, 1, 0]
  const RWALK: Bytes := [7, 0, 0, 0, 111, 2, 0]
  const ROPEN: Bytes := [7, 0, 0, 0, 113, 3, 0]
  const OVERSIZED: Bytes := [12, 0, 0, 0, 117, 4, 0, 0, 0, 0, 128, 65]

  const SCRIPT: seq<Bytes> := [RVERSION, RATTACH, RWALK, ROPEN, OVERSIZED]

  function Scripted(): Channel {
    Channel(_ => true, k => if 0 <= k < |SCRIPT| then Datagram(SCRIPT[k]) else Nothing)
  }

  lemma ScriptedCall(k: nat, maxMsg: MsgSize)
    requires k < |SCRIPT|
    ensures Call(Scripted(), k, k, k) == Outcome(Some(k), k + 1, k + 1) && FrameTag(SCRIPT[k]) == TAGS[k]
    ensures Reply(Scripted(), k, maxMsg) == SCRIPT[k] && SCRIPT[k][4] == TypeOf(Request(k, maxMsg)) + 1
  {
    var ch := Scripted();
    assert SCRIPT[k][5..7] == [SCRIPT[k][5], SCRIPT[k][6]];
    assert FrameTag(SCRIPT[k]) == TAGS[k];
    assert ch.read(k) == Datagram(SCRIPT[k]) && Bears(ch.read(k), TAGS[k]);
    assert Polls(ch, M9_RPC, TAGS[k], k + 1, k, 1, 2) == Outcome(Some(k), k + 1, k + 1);
  }

  lemma OversizedCount()
    ensures Count(OVERSIZED) == TWO31 && Payload(OVERSIZED) == [65]
  {
    assert OVERSIZED[7..11] == [0, 0, 0, 128] && OVERSIZED[11..] == [65];
  }

  lemma ScriptedAnswers()
    ensures OnlyReplies(Scripted(), TAGS, k => k)
  {
    forall k: nat | k < |SCRIPT|
      ensures FrameTag(SCRIPT[k]) == TAGS[k]
    {
      ScriptedCall(k, 16);
    }
    hide FrameTag;
  }

  lemma ScriptedReply(k: nat, maxMsg: MsgSize)
    requires k < |SCRIPT|
    ensures IsReply(Scripted(), k, Call(Scripted(), k, k, k), maxMsg)
    ensures Call(Scripted(), k, k, k) == Outcome(Some(k), k + 1, k + 1)
  {
    ScriptedCall(k, maxMsg);
    hide Call, Reply, TypeOf, Request;
  }

  lemma ScriptedBatches(maxMsg: MsgSize)
    ensures SessionBatches(Scripted(), 0, 0, 0, maxMsg) == [4]
  {
    var ch := Scripted();
    OversizedCount();
    ScriptedCall(4, maxMsg);
    ScriptedReply(4, maxMsg);
    assert Oversized(Reply(ch, 4, maxMsg));
    hide Call, IsReply, Reply, Oversized;
    assert Batches(ch, 4, 4, 4, maxMsg) == [4];
    ScriptedReply(3, maxMsg);
    assert SessionBatches(ch, 3, 3, 3, maxMsg) == [4];
    ScriptedReply(2, maxMsg);
    assert SessionBatches(ch, 2, 2, 2, maxMsg) == [4];
    ScriptedReply(1, maxMsg);
    assert SessionBatches(ch, 1, 1, 1, maxMsg) == [4];
    ScriptedReply(0, maxMsg);
  }

  /** One datagram is enough: on this channel, whose every datagram is the one reply to its own call, the copy
      of the first batch is given 2^31 bytes, of which the reply carries one, whatever buffer there is. */
  lemma OversizedCountOverruns(cap: u32, maxMsg: MsgSize)
    requires 8 < cap < TWO31
    ensures var ch := Scripted();
            var reply := Reply(ch, 4, maxMsg);
            && OnlyReplies(ch, TAGS, k => k) && SessionBatches(ch, 0, 0, 0, maxMsg) == [4]
            && Payload(reply) == [65] && Clamped(Count(reply), 1, cap - 1) == TWO31
            && KeepsOversized(ch, [4], Usable(cap), maxMsg)
  {
    OversizedCount();
    ScriptedCall(4, maxMsg);
    hide Reply, Count, Payload, SessionBatches, OnlyReplies;
    ScriptedAnswers();
    ScriptedBatches(maxMsg);
    assert [4][..0] == [];
  }
}
