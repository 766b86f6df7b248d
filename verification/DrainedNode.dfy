/** Draining a node over the mesh, both ends together: the session of aether_net_drain_peer
    (dect_mesh/src/aether_net.c) against a peer whose dev/mflt is read destructively by every Tread that reaches
    it (gen_mflt, dect_mesh/src/aether_9p.c). Requests land; replies may be lost. */
module DrainedNode {
  import opened Wire
  import opened TagRpc
  import opened Drain
  import opened Telemetry
  import opened MfltFiles
  import Base64
  import MeshTelemetry

  // ---- the bytes ----

  /** A text as it travels. */
  function AsBytes(s: string): (b: Bytes)
    ensures |b| == |s|
  {
    seq(|s|, i requires 0 <= i < |s| => s[i] as int % 0x100)
  }

  /** And as it lands in a buffer of char. */
  function AsText(b: Bytes): string { seq(|b|, i requires 0 <= i < |b| => b[i] as char) }

  predicate ByteWide(s: string) { forall c | c in s :: c as int < 0x100 }

  lemma TextOfBytes(s: string, b: Bytes)
    requires ByteWide(s) && b <= AsBytes(s)
    ensures AsText(b) == s[..|b|]
  {
    forall i | 0 <= i < |b|
      ensures AsText(b)[i] == s[i]
    {
      assert s[i] in s && b[i] == AsBytes(s)[i];
    }
  }

  lemma AsBytesConcat(a: string, b: string)
    ensures AsBytes(a + b) == AsBytes(a) + AsBytes(b)
  {
  }

  /** The reply to a Tread. */
  function Rread(tag: u16, data: Bytes): Bytes
    requires |data| < TWO31
  {
    Np32(11 + |data|) + ([117] + (Np16(tag) + (Np32(|data|) + data)))
  }

  lemma RreadReads(tag: u16, data: Bytes)
    requires |data| < TWO31
    ensures var b := Rread(tag, data);
            && |b| == 11 + |data| && b[4] == 117 && FrameTag(b) == tag
            && Payload(b) == data && !Oversized(b) && (Keeps(b) <==> data != [])
  {
    hide Np32, Np16, Ng32, Ng16;
    var b := Rread(tag, data);
    Ng16OfNp16(tag, []);
    assert b[5..7] == Np16(tag) + [];
    Ng32OfNp32(|data|, []);
    assert b[7..11] == Np32(|data|) + [];
    assert b[11..] == data;
  }

  /** A bare reply to a set-up request. */
  function Ack(ty: byte, tag: u16): Bytes { [7, 0, 0, 0, ty] + Np16(tag) }

  lemma AckReads(ty: byte, tag: u16)
    ensures var b := Ack(ty, tag); |b| == 7 && b[4] == ty && FrameTag(b) == tag
  {
    hide Np16, Ng16;
    Ng16OfNp16(tag, []);
    assert Ack(ty, tag)[5..7] == Np16(tag) + [];
  }

  // ---- the peer ----

  function DevLine(serial: string): nat { |Render([Dev(serial)])| }

  /** Chunks the packetizer hands out, under a name that fits a DEV line; and reads large enough for one. */
  predicate Drainable(serial: string, queue: seq<Bytes>, maxMsg: MsgSize) {
    && Printable(Dev(serial)) && (forall c | c in queue :: |c| <= 192)
    && DevLine(serial) + 270 <= maxMsg - 16
  }

  /** What the peer answers to the session's k-th request: a Tread is served with the offset and the count it
      carries. */
  function ReplyTo(k: nat, serial: string, queue: seq<Bytes>, maxMsg: MsgSize): Bytes
    requires k < 20 && Drainable(serial, queue, maxMsg)
  {
    var m := Request(k, maxMsg);
    if m.Tread? then
      var text := Served(serial, queue, m.offset, m.count).0;
      if |text| < TWO31 then Rread(m.tag, AsBytes(text)) else []
    else Ack(TypeOf(m) + 1, TagOf(m))
  }

  /** And what is left in its queue then. */
  function LeftBy(k: nat, serial: string, queue: seq<Bytes>, maxMsg: MsgSize): (rest: seq<Bytes>)
    requires k < 20
    ensures Drainable(serial, queue, maxMsg) ==> Drainable(serial, rest, maxMsg)
  {
    var m := Request(k, maxMsg);
    if m.Tread? then queue[Served(serial, queue, m.offset, m.count).1..] else queue
  }

  /** The queue as the Tread finds it whose reply is the first not lost, if one of the two is not. */
  function FoundBy(k: nat, serial: string, queue: seq<Bytes>, lost: nat, maxMsg: MsgSize): (q: seq<Bytes>)
    requires k < 20
    ensures Drainable(serial, queue, maxMsg) ==> Drainable(serial, q, maxMsg)
  {
    if lost == 0 then queue else LeftBy(k, serial, queue, maxMsg)
  }

  function Silence(lost: nat): seq<Answer> {
    if lost == 0 then [] else if lost == 1 then [Nothing] else [Nothing, Nothing]
  }

  /** What the session hears from call k on, when so many replies to each call are lost: one lost has the request
      sent, and served, again; two end the call. */
  function Hears(k: nat, serial: string, queue: seq<Bytes>, lost: nat -> nat, maxMsg: MsgSize): seq<Answer>
    requires k <= 20 && Drainable(serial, queue, maxMsg)
    decreases 20 - k
  {
    if k == 20 then [] else
    var q := FoundBy(k, serial, queue, lost(k), maxMsg);
    Silence(lost(k))
    + if lost(k) > 1 then []
      else [Datagram(ReplyTo(k, serial, q, maxMsg))] + Hears(k + 1, serial, LeftBy(k, serial, q, maxMsg), lost, maxMsg)
  }

  /** From read r on the channel yields these answers; every send gets through. */
  ghost predicate Yields(ch: Channel, r: nat, answers: seq<Answer>) {
    && (forall s: nat :: ch.sendOk(s))
    && forall j | r <= j < r + |answers| :: ch.read(j) == answers[j - r]
  }

  lemma YieldsRest(ch: Channel, r: nat, first: seq<Answer>, rest: seq<Answer>)
    requires Yields(ch, r, first + rest)
    ensures Yields(ch, r, first) && Yields(ch, r + |first|, rest)
  {
    var all := first + rest;
    assert forall j | r <= j < r + |first| :: ch.read(j) == all[j - r];
    forall j | r + |first| <= j < r + |first| + |rest|
      ensures ch.read(j) == rest[j - (r + |first|)]
    {
      assert ch.read(j) == all[j - r];
    }
  }

  /** What that means for one call that is answered, */
  lemma HearsReply(ch: Channel, k: nat, r: nat, serial: string, queue: seq<Bytes>, lost: nat -> nat, maxMsg: MsgSize,
                   q: seq<Bytes>)
    requires k < 20 && Drainable(serial, queue, maxMsg) && Yields(ch, r, Hears(k, serial, queue, lost, maxMsg))
    requires lost(k) < 2 && q == FoundBy(k, serial, queue, lost(k), maxMsg)
    ensures lost(k) > 0 ==> ch.read(r) == Nothing
    ensures ch.read(r + lost(k)) == Datagram(ReplyTo(k, serial, q, maxMsg))
    ensures Yields(ch, r + lost(k) + 1, Hears(k + 1, serial, LeftBy(k, serial, q, maxMsg), lost, maxMsg))
  {
    hide ReplyTo, LeftBy, FoundBy, Drainable, Hears, Yields, Silence;
    HearsAre(k, serial, queue, lost, maxMsg, q);
    YieldsCall(ch, r, lost(k), Datagram(ReplyTo(k, serial, q, maxMsg)),
               Hears(k + 1, serial, LeftBy(k, serial, q, maxMsg), lost, maxMsg));
  }

  lemma HearsAre(k: nat, serial: string, queue: seq<Bytes>, lost: nat -> nat, maxMsg: MsgSize, q: seq<Bytes>)
    requires k < 20 && Drainable(serial, queue, maxMsg)
    requires lost(k) < 2 && q == FoundBy(k, serial, queue, lost(k), maxMsg)
    ensures Hears(k, serial, queue, lost, maxMsg)
         == Silence(lost(k)) + ([Datagram(ReplyTo(k, serial, q, maxMsg))]
                                + Hears(k + 1, serial, LeftBy(k, serial, q, maxMsg), lost, maxMsg))
  {
    hide ReplyTo, LeftBy, FoundBy, Drainable, Silence;
  }

  /** and for one that is not. */
  lemma HearsNothing(ch: Channel, k: nat, r: nat, serial: string, queue: seq<Bytes>, lost: nat -> nat, maxMsg: MsgSize)
    requires k < 20 && Drainable(serial, queue, maxMsg) && Yields(ch, r, Hears(k, serial, queue, lost, maxMsg))
    requires lost(k) > 1
    ensures ch.read(r) == ch.read(r + 1) == Nothing
  {
    hide ReplyTo, LeftBy, FoundBy, Drainable, Yields, Silence;
    assert Hears(k, serial, queue, lost, maxMsg) == Silence(lost(k)) + [] == Silence(lost(k));
    hide Hears;
    YieldsSilence(ch, r, lost(k));
  }

  lemma YieldsCall(ch: Channel, r: nat, lost: nat, reply: Answer, more: seq<Answer>)
    requires lost < 2 && Yields(ch, r, Silence(lost) + ([reply] + more))
    ensures (lost > 0 ==> ch.read(r) == Nothing) && ch.read(r + lost) == reply && Yields(ch, r + lost + 1, more)
  {
    hide Yields;
    YieldsRest(ch, r, Silence(lost), [reply] + more);
    YieldsRest(ch, r + lost, [reply], more);
    YieldsOne(ch, r + lost, reply);
    YieldsSilence(ch, r, lost);
  }

  lemma YieldsOne(ch: Channel, r: nat, a: Answer)
    requires Yields(ch, r, [a])
    ensures ch.read(r) == a
  {
  }

  lemma YieldsSilence(ch: Channel, r: nat, lost: nat)
    requires Yields(ch, r, Silence(lost))
    ensures (lost > 0 ==> ch.read(r) == Nothing) && (lost > 1 ==> ch.read(r + 1) == Nothing)
  {
  }

  /** A call whose first replies are lost finds the next one. */
  lemma CallHears(ch: Channel, k: nat, s: nat, r: nat, lost: nat)
    requires k < 20 && (forall s: nat :: ch.sendOk(s))
    requires lost > 0 ==> ch.read(r) == Nothing
    requires lost > 1 ==> ch.read(r + 1) == Nothing
    requires lost < 2 ==> Bears(ch.read(r + lost), TAGS[k])
    ensures var o := Call(ch, k, s, r);
            if lost < 2 then o == Outcome(Some(r + lost), s + lost + 1, r + lost + 1) else o.found.None?
  {
    var want := TAGS[k];
    hide Attempts;
    AttemptExactly(ch, M9_RPC, want, s, r, 2, 0);
    if lost > 0 {
      AttemptExactly(ch, M9_RPC, want, s + 1, r + 1, 1, 0);
      NoAttempts(ch, M9_RPC, want, s + 2, r + 2);
    }
  }

  // ---- how much one read takes ----

  lemma {:induction false} ChunksCons(c: Bytes, rest: seq<Bytes>)
    ensures Chunks([c] + rest) == [Chunk(c)] + Chunks(rest)
  {
    if rest == [] {
      assert [c] + rest == [c] && [c][..0] == [];
    } else {
      var all := [c] + rest;
      assert all[..|all| - 1] == [c] + rest[..|rest| - 1];
      ChunksCons(c, rest[..|rest| - 1]);
    }
  }

  lemma {:induction false} TakesFit(queue: seq<Bytes>, used: nat, size: nat)
    requires used <= size && forall c | c in queue :: |c| <= 192
    ensures used + |Render(Chunks(queue[..Takes(queue, used, size)]))| <= size
  {
    hide Text;
    var n := Takes(queue, used, size);
    if n == 0 {
      assert queue[..0] == [];
    } else {
      ChunkText(queue[0]);
      var rest := queue[1..];
      assert queue[..n] == [queue[0]] + rest[..n - 1];
      ChunksCons(queue[0], rest[..n - 1]);
      TakesFit(rest, used + |Text(Chunk(queue[0]))|, size);
      assert ([Chunk(queue[0])] + Chunks(rest[..n - 1]))[1..] == Chunks(rest[..n - 1]);
    }
  }

  /** One batch as text: the device line and the chunks' lines. */
  function Batch(serial: string, chunks: seq<Bytes>): string { Render([Dev(serial)] + Chunks(chunks)) }

  function TakesOf(serial: string, queue: seq<Bytes>, maxMsg: MsgSize): nat {
    Takes(queue, DevLine(serial), maxMsg - 16)
  }

  /** Each of the session's Treads brings the device line and at least one chunk from the front of the queue as
      long as there is one, and an empty reply otherwise. */
  lemma TreadServes(k: nat, serial: string, queue: seq<Bytes>, maxMsg: MsgSize)
    requires 4 <= k < 20 && Drainable(serial, queue, maxMsg)
    ensures var n, b := TakesOf(serial, queue, maxMsg), ReplyTo(k, serial, queue, maxMsg);
            && n <= |queue| && (queue != [] ==> n > 0) && LeftBy(k, serial, queue, maxMsg) == queue[n..]
            && 11 <= |b| <= maxMsg && FrameTag(b) == TAGS[k] && b[4] == 117 && !Oversized(b)
            && Payload(b) == (if queue == [] then [] else AsBytes(Batch(serial, queue[..n])))
            && (Keeps(b) <==> queue != [])
  {
    hide Render, Text, Takes, Chunks, Rread, Oversized, Payload, Keeps, FrameTag, AsBytes;
    var n := TakesOf(serial, queue, maxMsg);
    var m := Request(k, maxMsg);
    var text := Served(serial, queue, m.offset, m.count).0;
    assert m == Tread(k, 2, 0, maxMsg - 16);
    if queue != [] {
      TakesOne(queue, DevLine(serial), maxMsg - 16);
      TakesFit(queue, DevLine(serial), maxMsg - 16);
      RenderConcat([Dev(serial)], Chunks(queue[..n]));
      NotBlank(serial);
    }
    RreadReads(m.tag, AsBytes(text));
    RequestTag(k, maxMsg);
  }

  lemma TakesOne(queue: seq<Bytes>, used: nat, size: nat)
    requires queue != [] && used + 270 <= size
    ensures Takes(queue, used, size) > 0
  {
  }

  /** A read takes a chunk if and only if it has room for the device line and 270 bytes. */
  lemma ReadTakesExactly(serial: string, queue: seq<Bytes>, maxMsg: MsgSize)
    requires queue != []
    ensures TakesOf(serial, queue, maxMsg) > 0 <==> DevLine(serial) + 286 <= maxMsg
  {
    hide Render;
  }

  lemma NotBlank(serial: string)
    ensures DevLine(serial) > 0
  {
  }

  // ---- what becomes of the queue ----

  /** `kept`: the chunks of the batches collected, one batch a Tread; `wasted`: those taken out of the queue by a
      Tread whose reply was lost; `rest`: those still queued. `cut`: a call got no reply at all. */
  datatype Flow = Flow(kept: seq<seq<Bytes>>, wasted: seq<Bytes>, rest: seq<Bytes>, cut: bool)

  /** From the k-th call on. */
  function FlowFrom(k: nat, serial: string, queue: seq<Bytes>, lost: nat -> nat, maxMsg: MsgSize): Flow
    requires 4 <= k <= 20
    decreases 20 - k
  {
    if k == 20 then Flow([], [], queue, false) else
    var n := TakesOf(serial, queue, maxMsg);
    var q, gone := if lost(k) == 0 then queue else queue[n..], if lost(k) == 0 then [] else queue[..n];
    var m := TakesOf(serial, q, maxMsg);
    if lost(k) > 1 then Flow([], gone + q[..m], q[m..], true)
    else if q == [] then Flow([], gone, [], false)
    else
      var more := FlowFrom(k + 1, serial, q[m..], lost, maxMsg);
      more.(kept := [q[..m]] + more.kept, wasted := gone + more.wasted)
  }

  /** From the session's first call on: losing two replies to a set-up request ends it with the queue untouched. */
  function SessionFlow(k: nat, serial: string, queue: seq<Bytes>, lost: nat -> nat, maxMsg: MsgSize): Flow
    requires k <= 4
    decreases 4 - k
  {
    if k == 4 then FlowFrom(4, serial, queue, lost, maxMsg)
    else if lost(k) > 1 then Flow([], [], queue, true)
    else SessionFlow(k + 1, serial, queue, lost, maxMsg)
  }

  function Flat(batches: seq<seq<Bytes>>): seq<Bytes> {
    if batches == [] then [] else batches[0] + Flat(batches[1..])
  }

  /** The tokens of the batches, one after another. */
  function TokensOf(serial: string, batches: seq<seq<Bytes>>): seq<Token> {
    if batches == [] then [] else [Dev(serial)] + Chunks(batches[0]) + TokensOf(serial, batches[1..])
  }

  lemma TokensNext(serial: string, batches: seq<seq<Bytes>>)
    requires batches != []
    ensures Render(TokensOf(serial, batches)) == Batch(serial, batches[0]) + Render(TokensOf(serial, batches[1..]))
  {
    hide Render, Chunks;
    RenderConcat([Dev(serial)] + Chunks(batches[0]), TokensOf(serial, batches[1..]));
  }

  /** What a call that gets a reply adds to the batches. */
  lemma Picked(ch: Channel, k: nat, s: nat, r: nat, o: Outcome, serial: string, queue: seq<Bytes>, maxMsg: MsgSize)
    requires 4 <= k < 20 && Drainable(serial, queue, maxMsg)
    requires Call(ch, k, s, r) == o && o.found.Some?
    requires ch.read(o.found.value) == Datagram(ReplyTo(k, serial, queue, maxMsg))
    ensures Batches(ch, k, s, r, maxMsg)
         == if queue == [] then [] else [o.found.value] + Batches(ch, k + 1, o.sends, o.gets, maxMsg)
    ensures var reply := Reply(ch, o.found.value, maxMsg);
            && !Oversized(reply)
            && Payload(reply) == (if queue == [] then []
                                  else AsBytes(Batch(serial, queue[..TakesOf(serial, queue, maxMsg)])))
  {
    hide ReplyTo, Call, Oversized, Payload, Keeps, FrameTag, AsBytes, Batch, Drainable, TakesOf, Bears, Reply, Batches;
    TreadServes(k, serial, queue, maxMsg);
    HeldWhole(ch, o.found.value, ReplyTo(k, serial, queue, maxMsg), maxMsg);
    KeptOrNot(ch, k, s, r, o, maxMsg);
  }

  lemma HeldWhole(ch: Channel, p: nat, b: Bytes, maxMsg: MsgSize)
    requires ch.read(p) == Datagram(b) && |b| <= maxMsg
    ensures Reply(ch, p, maxMsg) == b
  {
  }

  lemma KeptOrNot(ch: Channel, k: nat, s: nat, r: nat, o: Outcome, maxMsg: MsgSize)
    requires 4 <= k < 20 && Call(ch, k, s, r) == o && o.found.Some?
    requires var reply := Reply(ch, o.found.value, maxMsg); |reply| >= 7 && reply[4] == 117 && !Oversized(reply)
    ensures Batches(ch, k, s, r, maxMsg)
         == if !Keeps(Reply(ch, o.found.value, maxMsg)) then []
            else [o.found.value] + Batches(ch, k + 1, o.sends, o.gets, maxMsg)
  {
    hide Call, Oversized, Keeps, Reply;
  }

  lemma GatheredCons(ch: Channel, p: nat, rest: seq<nat>, maxMsg: MsgSize)
    ensures Gathered(ch, [p] + rest, maxMsg) == Payload(Reply(ch, p, maxMsg)) + Gathered(ch, rest, maxMsg)
  {
    hide Payload;
    assert ([p] + rest)[1..] == rest;
  }

  /** What the batches carry: all of them whole, none with an oversized count. */
  ghost predicate Carries(ch: Channel, picks: seq<nat>, serial: string, kept: seq<seq<Bytes>>, maxMsg: MsgSize) {
    && |picks| == |kept| && Gathered(ch, picks, maxMsg) == AsBytes(Render(TokensOf(serial, kept)))
    && forall p | p in picks :: !Oversized(Reply(ch, p, maxMsg))
  }

  lemma CarriesNone(ch: Channel, serial: string, maxMsg: MsgSize)
    ensures Carries(ch, [], serial, [], maxMsg)
  {
  }

  lemma CarriesOne(ch: Channel, p: nat, picks: seq<nat>, serial: string, batch: seq<Bytes>, kept: seq<seq<Bytes>>,
                   maxMsg: MsgSize)
    requires Carries(ch, picks, serial, kept, maxMsg) && !Oversized(Reply(ch, p, maxMsg))
    requires Payload(Reply(ch, p, maxMsg)) == AsBytes(Batch(serial, batch))
    ensures Carries(ch, [p] + picks, serial, [batch] + kept, maxMsg)
  {
    hide Oversized, Payload, Gathered, TokensOf, Render, AsBytes;
    GatheredCons(ch, p, picks, maxMsg);
    TokensNext(serial, [batch] + kept);
    assert ([batch] + kept)[1..] == kept;
    AsBytesConcat(Batch(serial, batch), Render(TokensOf(serial, kept)));
  }

  lemma ReplyBears(k: nat, serial: string, queue: seq<Bytes>, maxMsg: MsgSize)
    requires k < 20 && Drainable(serial, queue, maxMsg)
    ensures Bears(Datagram(ReplyTo(k, serial, queue, maxMsg)), TAGS[k])
  {
    if k >= 4 {
      TreadServes(k, serial, queue, maxMsg);
    } else {
      var m := Request(k, maxMsg);
      AckReads(TypeOf(m) + 1, TagOf(m));
    }
  }

  /** From a Tread on, against such a peer: the session collects exactly the batches of the flow. */
  lemma {:induction false} BatchesCarry(ch: Channel, k: nat, s: nat, r: nat, serial: string, queue: seq<Bytes>,
                                        lost: nat -> nat, maxMsg: MsgSize)
    requires 4 <= k <= 20 && Drainable(serial, queue, maxMsg)
    requires Yields(ch, r, Hears(k, serial, queue, lost, maxMsg))
    ensures Carries(ch, Batches(ch, k, s, r, maxMsg), serial, FlowFrom(k, serial, queue, lost, maxMsg).kept, maxMsg)
    decreases 20 - k, 1
  {
    hide Call, ReplyTo, Carries, Drainable, TakesOf, Batches, Hears, LeftBy, FoundBy, FlowFrom, Yields;
    CarriesNone(ch, serial, maxMsg);
    if k == 20 {
      NoMoreReads(ch, s, r, serial, queue, lost, maxMsg);
    } else {
      var l := lost(k);
      var q := FoundBy(k, serial, queue, l, maxMsg);
      CallFares(ch, k, s, r, serial, queue, lost, maxMsg);
      FlowStep(k, serial, queue, lost, maxMsg);
      if l < 2 {
        BatchCarries(ch, k, s, r, serial, q, l, lost, maxMsg);
      } else {
        NoReplyNoBatch(ch, k, s, r, maxMsg);
      }
    }
  }

  lemma NoMoreReads(ch: Channel, s: nat, r: nat, serial: string, queue: seq<Bytes>, lost: nat -> nat, maxMsg: MsgSize)
    ensures Batches(ch, 20, s, r, maxMsg) == [] && FlowFrom(20, serial, queue, lost, maxMsg).kept == []
  {
  }

  lemma CallFares(ch: Channel, k: nat, s: nat, r: nat, serial: string, queue: seq<Bytes>, lost: nat -> nat,
                  maxMsg: MsgSize)
    requires k < 20 && Drainable(serial, queue, maxMsg) && Yields(ch, r, Hears(k, serial, queue, lost, maxMsg))
    ensures var q, l := FoundBy(k, serial, queue, lost(k), maxMsg), lost(k);
            && Drainable(serial, q, maxMsg)
            && if l > 1 then Call(ch, k, s, r).found.None?
               else && Call(ch, k, s, r) == Outcome(Some(r + l), s + l + 1, r + l + 1)
                    && ch.read(r + l) == Datagram(ReplyTo(k, serial, q, maxMsg))
                    && Yields(ch, r + l + 1, Hears(k + 1, serial, LeftBy(k, serial, q, maxMsg), lost, maxMsg))
  {
    hide Call, ReplyTo, Drainable, Hears, LeftBy, FoundBy, Bears;
    var q := FoundBy(k, serial, queue, lost(k), maxMsg);
    if lost(k) < 2 {
      HearsReply(ch, k, r, serial, queue, lost, maxMsg, q);
    } else {
      HearsNothing(ch, k, r, serial, queue, lost, maxMsg);
    }
    ReplyBears(k, serial, q, maxMsg);
    CallHears(ch, k, s, r, lost(k));
  }

  lemma FlowStep(k: nat, serial: string, queue: seq<Bytes>, lost: nat -> nat, maxMsg: MsgSize)
    requires 4 <= k < 20 && Drainable(serial, queue, maxMsg)
    ensures var q := FoundBy(k, serial, queue, lost(k), maxMsg);
            var m := TakesOf(serial, q, maxMsg);
            && m <= |q|
            && FlowFrom(k, serial, queue, lost, maxMsg).kept
               == if lost(k) > 1 || q == [] then [] else [q[..m]] + FlowFrom(k + 1, serial, q[m..], lost, maxMsg).kept
  {
    hide TakesOf, Drainable, LeftBy;
    TreadServesQueue(k, serial, queue, maxMsg);
    TreadServesQueue(k, serial, FoundBy(k, serial, queue, lost(k), maxMsg), maxMsg);
  }

  lemma {:induction false} BatchCarries(ch: Channel, k: nat, s: nat, r: nat, serial: string, q: seq<Bytes>,
                                        l: nat, lost: nat -> nat, maxMsg: MsgSize)
    requires 4 <= k < 20 && l < 2 && Drainable(serial, q, maxMsg)
    requires Call(ch, k, s, r) == Outcome(Some(r + l), s + l + 1, r + l + 1)
    requires ch.read(r + l) == Datagram(ReplyTo(k, serial, q, maxMsg))
    requires Yields(ch, r + l + 1, Hears(k + 1, serial, LeftBy(k, serial, q, maxMsg), lost, maxMsg))
    ensures var m := TakesOf(serial, q, maxMsg);
            && m <= |q|
            && Carries(ch, Batches(ch, k, s, r, maxMsg), serial,
                       if q == [] then [] else [q[..m]] + FlowFrom(k + 1, serial, q[m..], lost, maxMsg).kept, maxMsg)
    decreases 20 - k, 0
  {
    hide Call, ReplyTo, Carries, Drainable, TakesOf, Oversized, Payload, Batch, Batches, Reply, Hears, LeftBy, FlowFrom;
    hide Yields;
    CarriesNone(ch, serial, maxMsg);
    TreadServesQueue(k, serial, q, maxMsg);
    Picked(ch, k, s, r, Outcome(Some(r + l), s + l + 1, r + l + 1), serial, q, maxMsg);
    if q != [] {
      var m := TakesOf(serial, q, maxMsg);
      var more := Batches(ch, k + 1, s + l + 1, r + l + 1, maxMsg);
      BatchesCarry(ch, k + 1, s + l + 1, r + l + 1, serial, q[m..], lost, maxMsg);
      CarriesOne(ch, r + l, more, serial, q[..m], FlowFrom(k + 1, serial, q[m..], lost, maxMsg).kept, maxMsg);
    }
  }

  lemma NoReplyNoBatch(ch: Channel, k: nat, s: nat, r: nat, maxMsg: MsgSize)
    requires 4 <= k < 20 && Call(ch, k, s, r).found.None?
    ensures Batches(ch, k, s, r, maxMsg) == []
  {
    hide Call;
  }

  lemma TreadServesQueue(k: nat, serial: string, queue: seq<Bytes>, maxMsg: MsgSize)
    requires 4 <= k < 20 && Drainable(serial, queue, maxMsg)
    ensures var n := TakesOf(serial, queue, maxMsg);
            && n <= |queue| && (queue != [] ==> n > 0) && LeftBy(k, serial, queue, maxMsg) == queue[n..]
            && Drainable(serial, queue[n..], maxMsg)
  {
    TreadServes(k, serial, queue, maxMsg);
  }

  // ---- the whole session ----

  lemma SetUpAnswered(ch: Channel, k: nat, s: nat, r: nat, p: nat, serial: string, queue: seq<Bytes>, maxMsg: MsgSize)
    requires k < 4 && Drainable(serial, queue, maxMsg)
    requires Call(ch, k, s, r).found == Some(p) && ch.read(p) == Datagram(ReplyTo(k, serial, queue, maxMsg))
    ensures var o := Call(ch, k, s, r);
            SessionBatches(ch, k, s, r, maxMsg) == SessionBatches(ch, k + 1, o.sends, o.gets, maxMsg)
    ensures LeftBy(k, serial, queue, maxMsg) == queue
  {
    hide Call;
    var m := Request(k, maxMsg);
    AckReads(TypeOf(m) + 1, TagOf(m));
  }

  lemma SetUpUnanswered(ch: Channel, k: nat, s: nat, r: nat, maxMsg: MsgSize)
    requires k < 4 && Call(ch, k, s, r).found.None?
    ensures SessionBatches(ch, k, s, r, maxMsg) == []
  {
    hide Call;
  }

  lemma {:induction false} SessionCarries(ch: Channel, k: nat, s: nat, r: nat, serial: string, queue: seq<Bytes>,
                                          lost: nat -> nat, maxMsg: MsgSize)
    requires k <= 4 && Drainable(serial, queue, maxMsg)
    requires Yields(ch, r, Hears(k, serial, queue, lost, maxMsg))
    ensures Carries(ch, SessionBatches(ch, k, s, r, maxMsg), serial,
                    SessionFlow(k, serial, queue, lost, maxMsg).kept, maxMsg)
    decreases 4 - k
  {
    hide Call, ReplyTo, Carries, Drainable, Batches, Hears, FlowFrom, Yields, SessionBatches;
    CarriesNone(ch, serial, maxMsg);
    if k == 4 {
      BatchesCarry(ch, 4, s, r, serial, queue, lost, maxMsg);
      AtFirstTread(ch, s, r, maxMsg);
    } else {
      var l := lost(k);
      CallFares(ch, k, s, r, serial, queue, lost, maxMsg);
      if l < 2 {
        SetUpLeaves(k, serial, queue, maxMsg);
        SetUpAnswered(ch, k, s, r, r + l, serial, queue, maxMsg);
        SessionCarries(ch, k + 1, s + l + 1, r + l + 1, serial, queue, lost, maxMsg);
      } else {
        SetUpUnanswered(ch, k, s, r, maxMsg);
      }
    }
  }

  lemma AtFirstTread(ch: Channel, s: nat, r: nat, maxMsg: MsgSize)
    ensures SessionBatches(ch, 4, s, r, maxMsg) == Batches(ch, 4, s, r, maxMsg)
  {
    hide Batches;
  }

  lemma SetUpLeaves(k: nat, serial: string, queue: seq<Bytes>, maxMsg: MsgSize)
    requires k < 4
    ensures LeftBy(k, serial, queue, maxMsg) == queue
  {
    hide Served;
  }

  /** Draining such a node, whatever replies are lost: the session stays in its buffers, and what lands in the
      output is the printed batches of the flow, from the first on, complete unless the buffer is within eight
      bytes of full. */
  lemma DrainCollects(ch: Channel, serial: string, queue: seq<Bytes>, lost: nat -> nat, d: Drained, room: nat,
                      maxMsg: MsgSize)
    requires Drainable(serial, queue, maxMsg) && Yields(ch, 0, Hears(0, serial, queue, lost, maxMsg))
    requires Outcomes(ch, SessionBatches(ch, 0, 0, 0, maxMsg), d, room, maxMsg)
    ensures var whole := AsBytes(Render(TokensOf(serial, SessionFlow(0, serial, queue, lost, maxMsg).kept)));
            && d.Filled? && d.out <= whole && |d.out| <= (if room > 0 then room - 1 else 0)
            && (d.out == whole || |d.out| + 8 >= room)
  {
    hide Hears, Yields, SessionBatches, SessionFlow, Gathered, Oversized, Render, TokensOf, Drainable, AsBytes, Reply;
    SessionCarries(ch, 0, 0, 0, serial, queue, lost, maxMsg);
  }

  // ---- conservation ----

  /** Nothing is lost without a reply being lost. */
  ghost predicate Lossless(lost: nat -> nat) { forall k: nat :: lost(k) == 0 }

  lemma FlatCons(batch: seq<Bytes>, kept: seq<seq<Bytes>>)
    ensures Flat([batch] + kept) == batch + Flat(kept)
  {
    assert ([batch] + kept)[1..] == kept;
  }

  lemma Shares<T>(gone: seq<T>, x: seq<T>, y: seq<T>, kept: seq<T>, wasted: seq<T>, rest: seq<T>)
    requires multiset(y) == multiset(kept) + multiset(wasted) + multiset(rest)
    ensures multiset(gone + (x + y)) == multiset(x + kept) + multiset(gone + wasted) + multiset(rest)
  {
  }

  lemma InFront<T>(x: seq<T>, y: seq<T>, kept: seq<T>, rest: seq<T>)
    requires kept + rest == y
    ensures (x + kept) + rest == x + y
  {
    assert (x + kept) + rest == x + (kept + rest);
  }

  lemma OneShare(queue: seq<Bytes>, gone: seq<Bytes>, q: seq<Bytes>, m: nat, kept: seq<seq<Bytes>>, wasted: seq<Bytes>,
                 rest: seq<Bytes>)
    requires queue == gone + q && m <= |q|
    requires multiset(q[m..]) == multiset(Flat(kept)) + multiset(wasted) + multiset(rest)
    ensures multiset(queue) == multiset(Flat([q[..m]] + kept)) + multiset(gone + wasted) + multiset(rest)
    ensures gone + wasted == [] && Flat(kept) + rest == q[m..] ==> Flat([q[..m]] + kept) + rest == queue
  {
    FlatCons(q[..m], kept);
    hide Flat;
    assert q == q[..m] + q[m..];
    Shares(gone, q[..m], q[m..], Flat(kept), wasted, rest);
    if gone + wasted == [] && Flat(kept) + rest == q[m..] {
      assert |gone| == 0 && queue == q;
      InFront(q[..m], q[m..], Flat(kept), rest);
    }
  }

  /** The chunks of the queue are kept, wasted or still queued, each once; with none wasted the kept ones are the
      front of the queue in order. Every batch kept has a chunk, and the session stops only when the queue is
      empty, after sixteen reads, or when a call gets no reply. Without a lost reply nothing is wasted, and the
      first reply lost to a Tread that finds a chunk wastes one. */
  ghost predicate Conserves(k: nat, queue: seq<Bytes>, lost: nat -> nat, f: Flow) {
    && multiset(queue) == multiset(Flat(f.kept)) + multiset(f.wasted) + multiset(f.rest)
    && (f.wasted == [] ==> Flat(f.kept) + f.rest == queue)
    && (forall b | b in f.kept :: b != [])
    && (f.rest == [] || |f.kept| == 20 - k || f.cut)
    && (Lossless(lost) ==> f.wasted == [] && !f.cut)
    && (k < 20 && queue != [] && lost(k) > 0 ==> f.wasted != [])
  }

  lemma {:induction false} FlowConserves(k: nat, serial: string, queue: seq<Bytes>, lost: nat -> nat, maxMsg: MsgSize)
    requires 4 <= k <= 20 && Drainable(serial, queue, maxMsg)
    ensures Conserves(k, queue, lost, FlowFrom(k, serial, queue, lost, maxMsg))
    decreases 20 - k
  {
    hide TakesOf, Drainable, LeftBy, FlowFrom, Conserves, Lossless;
    if k == 20 {
      AtTheEnd(serial, queue, lost, maxMsg);
    } else {
      var l := lost(k);
      TreadServesQueue(k, serial, queue, maxMsg);
      var n := TakesOf(serial, queue, maxMsg);
      var q, gone := if l == 0 then queue else queue[n..], if l == 0 then [] else queue[..n];
      TreadServesQueue(k, serial, q, maxMsg);
      var m := TakesOf(serial, q, maxMsg);
      FlowIs(k, serial, queue, lost, maxMsg, q, gone, m);
      if l > 1 || q == [] {
        StopConserves(k, queue, gone, q, m, lost);
      } else {
        FlowConserves(k + 1, serial, q[m..], lost, maxMsg);
        ShareConserves(k, serial, queue, gone, q, m, lost, FlowFrom(k + 1, serial, q[m..], lost, maxMsg));
      }
    }
  }

  lemma AtTheEnd(serial: string, queue: seq<Bytes>, lost: nat -> nat, maxMsg: MsgSize)
    ensures Conserves(20, queue, lost, FlowFrom(20, serial, queue, lost, maxMsg))
  {
    assert Flat([]) == [] && [] + queue == queue;
  }

  lemma FlowIs(k: nat, serial: string, queue: seq<Bytes>, lost: nat -> nat, maxMsg: MsgSize,
               q: seq<Bytes>, gone: seq<Bytes>, m: nat)
    requires 4 <= k < 20
    requires var n := TakesOf(serial, queue, maxMsg);
             && n <= |queue| && q == (if lost(k) == 0 then queue else queue[n..])
             && gone == if lost(k) == 0 then [] else queue[..n]
    requires m == TakesOf(serial, q, maxMsg) <= |q|
    ensures queue == gone + q
    ensures FlowFrom(k, serial, queue, lost, maxMsg)
         == if lost(k) > 1 then Flow([], gone + q[..m], q[m..], true)
            else if q == [] then Flow([], gone, [], false)
            else var more := FlowFrom(k + 1, serial, q[m..], lost, maxMsg);
                 more.(kept := [q[..m]] + more.kept, wasted := gone + more.wasted)
  {
    hide TakesOf;
  }

  lemma StopConserves(k: nat, queue: seq<Bytes>, gone: seq<Bytes>, q: seq<Bytes>, m: nat, lost: nat -> nat)
    requires 4 <= k < 20 && queue == gone + q && m <= |q| && (lost(k) > 1 || q == [])
    requires (lost(k) == 0 ==> gone == []) && (lost(k) > 0 && queue != [] ==> gone != [])
    ensures Conserves(k, queue, lost, if lost(k) > 1 then Flow([], gone + q[..m], q[m..], true)
                                      else Flow([], gone, [], false))
  {
    EmptyFlat();
    hide Flat, Lossless;
    assert q == q[..m] + q[m..];
    SplitInThree(gone, q[..m], q[m..]);
    if lost(k) == 0 {
      assert lost(k) == 0 && gone == [];
    }
    NotLossless(k, lost);
  }

  lemma EmptyFlat()
    ensures Flat([]) == []
  {
  }

  lemma NotLossless(k: nat, lost: nat -> nat)
    ensures lost(k) > 0 ==> !Lossless(lost)
  {
  }

  lemma SplitInThree<T>(a: seq<T>, b: seq<T>, c: seq<T>)
    ensures a + (b + c) == (a + b) + c && [] + c == c && [] + (a + b) == a + b
    ensures multiset(a + (b + c)) == multiset(a + b) + multiset(c)
    ensures multiset(a + []) == multiset(a)
  {
    assert a + (b + c) == (a + b) + c;
    assert a + [] == a;
  }

  lemma ShareConserves(k: nat, serial: string, queue: seq<Bytes>, gone: seq<Bytes>, q: seq<Bytes>, m: nat,
                       lost: nat -> nat, more: Flow)
    requires 4 <= k < 20 && queue == gone + q && 0 < m <= |q| && Conserves(k + 1, q[m..], lost, more)
    requires (lost(k) == 0 ==> gone == []) && (lost(k) > 0 && queue != [] ==> gone != [])
    ensures Conserves(k, queue, lost, more.(kept := [q[..m]] + more.kept, wasted := gone + more.wasted))
  {
    OneShare(queue, gone, q, m, more.kept, more.wasted, more.rest);
    hide Flat;
  }

  lemma {:induction false} SessionConserves(k: nat, serial: string, queue: seq<Bytes>, lost: nat -> nat,
                                            maxMsg: MsgSize)
    requires k <= 4 && Drainable(serial, queue, maxMsg)
    ensures var f := SessionFlow(k, serial, queue, lost, maxMsg);
            && multiset(queue) == multiset(Flat(f.kept)) + multiset(f.wasted) + multiset(f.rest)
            && (f.wasted == [] ==> Flat(f.kept) + f.rest == queue)
            && (f.rest == [] || |f.kept| == 16 || f.cut)
            && (Lossless(lost) ==> f.wasted == [] && !f.cut)
    decreases 4 - k
  {
    hide FlowFrom;
    if k == 4 {
      FlowConserves(4, serial, queue, lost, maxMsg);
    } else if lost(k) > 1 {
      assert Flat([]) == [] && [] + queue == queue;
    } else {
      SessionConserves(k + 1, serial, queue, lost, maxMsg);
    }
  }

  // ---- what the host gets ----

  /** The posts these chunks are worth. */
  function Posts(serial: string, chunks: seq<Bytes>): seq<Post> {
    if chunks == [] then []
    else (if serial != "" && chunks[0] != [] then [(serial, chunks[0])] else []) + Posts(serial, chunks[1..])
  }

  lemma {:induction false} PostsConcat(serial: string, a: seq<Bytes>, b: seq<Bytes>)
    ensures Posts(serial, a + b) == Posts(serial, a) + Posts(serial, b)
  {
    if a == [] {
      assert a + b == b;
    } else {
      assert (a + b)[1..] == a[1..] + b;
      PostsConcat(serial, a[1..], b);
    }
  }

  lemma {:induction false} PairsOfChunks(serial: string, chunks: seq<Bytes>)
    ensures Pairs(Chunks(chunks), serial) == Posts(serial, chunks)
  {
    if chunks != [] {
      var rest := chunks[1..];
      assert chunks == [chunks[0]] + rest;
      ChunksCons(chunks[0], rest);
      assert ([Chunk(chunks[0])] + Chunks(rest))[1..] == Chunks(rest);
      PairsOfChunks(serial, rest);
    }
  }

  lemma {:induction false} PairsOfTokens(serial: string, batches: seq<seq<Bytes>>, before: string)
    ensures Pairs(TokensOf(serial, batches), before) == Posts(serial, Flat(batches))
  {
    hide Posts;
    if batches == [] {
      NoPosts(serial);
    } else {
      var one, rest := Chunks(batches[0]), TokensOf(serial, batches[1..]);
      assert [Dev(serial)] + one + rest == [Dev(serial)] + (one + rest);
      assert ([Dev(serial)] + (one + rest))[1..] == one + rest;
      PairsConcat(one, rest, serial);
      PairsOfChunks(serial, batches[0]);
      PairsOfTokens(serial, batches[1..], SerialAfter(one, serial));
      PostsConcat(serial, batches[0], Flat(batches[1..]));
    }
  }

  lemma NoPosts(serial: string)
    ensures Posts(serial, []) == []
  {
  }

  predicate ChunkSized(chunks: seq<Bytes>) { forall c | c in chunks :: |c| <= 192 }

  lemma {:induction false} ChunksPrintable(chunks: seq<Bytes>)
    requires ChunkSized(chunks)
    ensures forall t | t in Chunks(chunks) :: t.Chunk? && |t.data| <= 192
  {
    if chunks != [] {
      ChunksPrintable(chunks[..|chunks| - 1]);
    }
  }

  lemma {:induction false} TokensPrintable(serial: string, batches: seq<seq<Bytes>>)
    requires Printable(Dev(serial)) && ChunkSized(Flat(batches))
    ensures forall t | t in TokensOf(serial, batches) :: Printable(t) && (t == Dev(serial) || t.Chunk?)
    ensures NamedFirst(TokensOf(serial, batches))
  {
    if batches != [] {
      var rest := Flat(batches[1..]);
      assert forall c | c in batches[0] :: c in batches[0] + rest;
      assert forall c | c in rest :: c in batches[0] + rest;
      ChunksPrintable(batches[0]);
      TokensPrintable(serial, batches[1..]);
    }
  }

  lemma {:induction false} EncByteWide(b: Bytes)
    ensures ByteWide(Base64.Enc(b))
    decreases |b|
  {
    if |b| >= 3 {
      EncByteWide(b[3..]);
    }
  }

  lemma TextByteWide(serial: string, t: Token)
    requires ByteWide(serial) && (t == Dev(serial) || t.Chunk?)
    ensures ByteWide(Text(t))
  {
    if t.Chunk? {
      EncByteWide(t.data);
    }
    hide Base64.Enc;
  }

  lemma {:induction false} RenderByteWide(serial: string, tokens: seq<Token>)
    requires ByteWide(serial) && forall t | t in tokens :: t == Dev(serial) || t.Chunk?
    ensures ByteWide(Render(tokens))
  {
    if tokens != [] {
      assert tokens[0] in tokens && forall u | u in tokens[1..] :: u in tokens;
      TextByteWide(serial, tokens[0]);
      RenderByteWide(serial, tokens[1..]);
      hide Text;
    }
  }

  /** End to end: what the drain of one named node leaves in the gateway's buffer is what dev/mflt_mesh counts on,
      a printed stream that names its device first, from its start, cut only where the room ends; and parsed by
      the host it is the chunks kept, in order, each under the node's name. Without a lost reply these are the
      front of the node's queue, all of it unless sixteen reads did not do. */
  lemma DrainBringsQueue(ch: Channel, serial: string, queue: seq<Bytes>, lost: nat -> nat, d: Drained, room: nat,
                         maxMsg: MsgSize)
    requires Drainable(serial, queue, maxMsg) && ByteWide(serial) && room > 0
    requires Yields(ch, 0, Hears(0, serial, queue, lost, maxMsg))
    requires Outcomes(ch, SessionBatches(ch, 0, 0, 0, maxMsg), d, room, maxMsg)
    ensures d.Filled?
    ensures var f := SessionFlow(0, serial, queue, lost, maxMsg);
            var stream := TokensOf(serial, f.kept);
            && (forall t | t in stream :: Printable(t)) && NamedFirst(stream)
            && MeshTelemetry.DrainBrings(Render(stream), AsText(d.out), room)
            && Parse(Render(stream), "") == Posts(serial, Flat(f.kept))
            && (Lossless(lost) ==> Flat(f.kept) + f.rest == queue && (f.rest == [] || |f.kept| == 16))
  {
    var f := SessionFlow(0, serial, queue, lost, maxMsg);
    var stream := TokensOf(serial, f.kept);
    SessionConserves(0, serial, queue, lost, maxMsg);
    KeptSized(queue, f);
    DrainCollects(ch, serial, queue, lost, d, room, maxMsg);
    TokensPrintable(serial, f.kept);
    RenderByteWide(serial, stream);
    PairsOfTokens(serial, f.kept, "");
    hide Hears, Yields, SessionBatches, SessionFlow, Outcomes, Flat, TokensOf, Render, Printable, Pairs, Parse, Posts;
    hide Lossless, AsBytes, AsText, ByteWide, NamedFirst;
    ParseOfRender(stream, "");
    TextOfBytes(Render(stream), d.out);
    WholeText(Render(stream));
  }

  lemma WholeText(s: string)
    ensures s[..|s|] == s && |AsBytes(s)| == |s|
  {
  }

  lemma KeptSized(queue: seq<Bytes>, f: Flow)
    requires ChunkSized(queue)
    requires multiset(queue) == multiset(Flat(f.kept)) + multiset(f.wasted) + multiset(f.rest)
    ensures ChunkSized(Flat(f.kept))
  {
    forall c | c in Flat(f.kept)
      ensures |c| <= 192
    {
      assert c in multiset(queue);
      assert c in queue;
    }
  }
}
