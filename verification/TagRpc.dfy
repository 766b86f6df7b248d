/** Request/response over the untagged datagram channel: send a framed 9P request, retry it when lost,
    and take the first reply that bears its tag. One loop with the budgets and reactions of its four
    copies: m9_rpc (dect_mesh/src/aether_net.c), mesh_rpc (tools/aether_forwarder.c), do_bridge
    (tools/aether_conv.c) and pump_fn (dect_relay/src/aether_conv_transport.c). */
module TagRpc {
  import opened Wire

  /** What one read of the data file (or queue) yields. */
  datatype Answer = Nothing | LinkDown | Datagram(bytes: Bytes)

  /** Everything the channel will do: the outcome of each send and of each read, by ordinal. */
  datatype Channel = Channel(sendOk: nat -> bool, read: nat -> Answer)

  datatype Reaction = Abort | Resend | ReadAgain

  datatype Policy = Policy(attempts: nat, polls: nat,
                           onSendFail: Reaction, onNothing: Reaction, onEmpty: Reaction, onLinkDown: Reaction)

  const M9_RPC := Policy(2, 2, Resend, Resend, Abort, Resend)
  const MESH_RPC := Policy(4, 6, Abort, Resend, Resend, Abort)
  const DO_BRIDGE := Policy(4, 6, Resend, Resend, Resend, Resend)
  const PUMP_FN := Policy(8, 6, Resend, ReadAgain, ReadAgain, ReadAgain)

  /** `found`: the ordinal of the read that carried the reply; `sends`, `reads`: ordinals used up. */
  datatype Outcome = Outcome(found: Option<nat>, sends: nat, gets: nat)

  function FrameTag(m: Bytes): u16
    requires |m| >= 7
  {
    Ng16(m[5..7])
  }

  predicate Bears(a: Answer, want: u16) {
    a.Datagram? && |a.bytes| >= 7 && FrameTag(a.bytes) == want
  }

  function React(p: Policy, a: Answer): Reaction {
    match a
    case Nothing => p.onNothing
    case LinkDown => p.onLinkDown
    case Datagram(b) => if b == [] then p.onEmpty else ReadAgain   // a stale or foreign tag
  }

  /** From the start of an attempt, `left` of them remaining. */
  function Attempts(ch: Channel, p: Policy, want: u16, s: nat, r: nat, left: nat): Outcome
    decreases left, 1, 0
  {
    if left == 0 then Outcome(None, s, r)
    else if !ch.sendOk(s) then
      if p.onSendFail.Abort? then Outcome(None, s + 1, r) else Attempts(ch, p, want, s + 1, r, left - 1)
    else Polls(ch, p, want, s + 1, r, left - 1, p.polls)
  }

  /** After a successful send, `polls` reads remaining in this attempt. */
  function Polls(ch: Channel, p: Policy, want: u16, s: nat, r: nat, left: nat, polls: nat): Outcome
    decreases left, 2, polls
  {
    if polls == 0 then Attempts(ch, p, want, s, r, left)
    else if Bears(ch.read(r), want) then Outcome(Some(r), s, r + 1)
    else match React(p, ch.read(r))
      case Abort => Outcome(None, s, r + 1)
      case Resend => Attempts(ch, p, want, s, r + 1, left)
      case ReadAgain => Polls(ch, p, want, s, r + 1, left, polls - 1)
  }

  /** A stale or foreign reply: some datagram, but not under this tag. */
  predicate Foreign(a: Answer, want: u16) { a.Datagram? && a.bytes != [] && !Bears(a, want) }

  /** The call gave up early: its last send failed, or its last read failed, brought nothing or found the link
      down, and the policy gives up on that. */
  predicate GaveUp(ch: Channel, p: Policy, s: nat, r: nat, o: Outcome) {
    || (o.sends > s && !ch.sendOk(o.sends - 1) && p.onSendFail.Abort?)
    || (o.gets > r && match ch.read(o.gets - 1)
                      case Nothing => p.onNothing.Abort?
                      case LinkDown => p.onLinkDown.Abort?
                      case Datagram(b) => b == [] && p.onEmpty.Abort?)
  }

  /** The loop as written. A reply is found behind any number of foreign ones that leaves it within the attempt,
      without another send; and a call that finds none has sent its request the full number of times, or gave up
      on something that is not a foreign reply. */
  method Rpc(ch: Channel, p: Policy, msg: Bytes, s0: nat, r0: nat) returns (o: Outcome)
    requires |msg| >= 7
    ensures o == Attempts(ch, p, FrameTag(msg), s0, r0, p.attempts)
    ensures forall m | r0 <= m < r0 + p.polls && p.attempts > 0 && ch.sendOk(s0) && Bears(ch.read(m), FrameTag(msg))
                       && forall k | r0 <= k < m :: Foreign(ch.read(k), FrameTag(msg)) ::
              o == Outcome(Some(m), s0 + 1, m + 1)
    ensures o.found.None? ==> o.sends == s0 + p.attempts || GaveUp(ch, p, s0, r0, o)
  {
    BehindForeign(ch, p, FrameTag(msg), s0, r0);
    if Attempts(ch, p, FrameTag(msg), s0, r0, p.attempts).found.None? {
      GivesUpOnlyWhenSpent(ch, p, FrameTag(msg), s0, r0, p.attempts);
    }
    hide GaveUp, Foreign;
    var want := FrameTag(msg);
    var s, r := s0, r0;
    var attempt := 0;
    while attempt < p.attempts
      invariant attempt <= p.attempts
      invariant Attempts(ch, p, want, s, r, p.attempts - attempt) == Attempts(ch, p, want, s0, r0, p.attempts)
    {
      attempt := attempt + 1;
      s := s + 1;
      if !ch.sendOk(s - 1) {
        if p.onSendFail == Abort {
          return Outcome(None, s, r);
        }
        continue;
      }
      var poll := 0;
      while poll < p.polls
        invariant poll <= p.polls
        invariant Polls(ch, p, want, s, r, p.attempts - attempt, p.polls - poll)
               == Attempts(ch, p, want, s0, r0, p.attempts)
      {
        var a := ch.read(r);
        r := r + 1;
        if Bears(a, want) {
          return Outcome(Some(r - 1), s, r);
        }
        match React(p, a) {
          case Abort => return Outcome(None, s, r);
          case Resend => break;
          case ReadAgain => poll := poll + 1;
        }
      }
    }
    return Outcome(None, s, r);
  }

  // ---- what it returns, and what it may cost ----

  /** What a finished exchange, begun at send s and read r, is worth. */
  predicate Honest(ch: Channel, want: u16, s: nat, r: nat, o: Outcome) {
    && o.sends >= s && o.gets >= r
    && (o.found.Some? ==> r <= o.found.value == o.gets - 1 && Bears(ch.read(o.found.value), want))
    && forall k | r <= k < o.gets && o.found != Some(k) :: !Bears(ch.read(k), want)
  }

  lemma {:induction false} AttemptsHonest(ch: Channel, p: Policy, want: u16, s: nat, r: nat, left: nat)
    ensures var o := Attempts(ch, p, want, s, r, left);
            && Honest(ch, want, s, r, o)
            && o.sends <= s + left && o.gets <= r + left * p.polls
            && (o.found.Some? ==> o.sends > s && ch.sendOk(o.sends - 1))
    decreases left, 1, 0
  {
    if left > 0 {
      assert left * p.polls == (left - 1) * p.polls + p.polls;
      if ch.sendOk(s) {
        PollsHonest(ch, p, want, s + 1, r, left - 1, p.polls);
      } else if !p.onSendFail.Abort? {
        AttemptsHonest(ch, p, want, s + 1, r, left - 1);
      }
    }
  }

  lemma {:induction false} PollsHonest(ch: Channel, p: Policy, want: u16, s: nat, r: nat, left: nat, polls: nat)
    requires polls <= p.polls && s > 0 && ch.sendOk(s - 1)
    ensures var o := Polls(ch, p, want, s, r, left, polls);
            && Honest(ch, want, s, r, o)
            && o.sends <= s + left && o.gets <= r + left * p.polls + polls
            && (o.found.Some? ==> ch.sendOk(o.sends - 1))
    decreases left, 2, polls
  {
    if polls == 0 {
      AttemptsHonest(ch, p, want, s, r, left);
    } else if !Bears(ch.read(r), want) {
      match React(p, ch.read(r))
      case Abort =>
      case Resend =>
        AttemptsHonest(ch, p, want, s, r + 1, left);
        OnePassedOver(ch, want, s, r, Attempts(ch, p, want, s, r + 1, left));
        hide Honest, Bears;
      case ReadAgain =>
        PollsHonest(ch, p, want, s, r + 1, left, polls - 1);
        OnePassedOver(ch, want, s, r, Polls(ch, p, want, s, r + 1, left, polls - 1));
        hide Honest, Bears;
    }
  }

  lemma OnePassedOver(ch: Channel, want: u16, s: nat, r: nat, o: Outcome)
    requires Honest(ch, want, s, r + 1, o) && !Bears(ch.read(r), want)
    ensures Honest(ch, want, s, r, o)
  {
  }

  /** A call ends without a reply only when its budget is spent or something it aborts on happened: the
      request was sent the full number of times, or the last send or the last read called for giving up. */
  lemma {:induction false} GivesUpOnlyWhenSpent(ch: Channel, p: Policy, want: u16, s: nat, r: nat, left: nat)
    requires Attempts(ch, p, want, s, r, left).found.None?
    ensures var o := Attempts(ch, p, want, s, r, left); o.sends == s + left || GaveUp(ch, p, s, r, o)
    decreases left, 1, 0
  {
    if left > 0 {
      if ch.sendOk(s) {
        PollsGiveUp(ch, p, want, s + 1, r, left - 1, p.polls);
      } else if !p.onSendFail.Abort? {
        GivesUpOnlyWhenSpent(ch, p, want, s + 1, r, left - 1);
      }
    }
  }

  lemma {:induction false} PollsGiveUp(ch: Channel, p: Policy, want: u16, s: nat, r: nat, left: nat, polls: nat)
    requires Polls(ch, p, want, s, r, left, polls).found.None?
    ensures var o := Polls(ch, p, want, s, r, left, polls); o.sends == s + left || GaveUp(ch, p, s, r, o)
    decreases left, 2, polls
  {
    if polls == 0 {
      GivesUpOnlyWhenSpent(ch, p, want, s, r, left);
    } else {
      match React(p, ch.read(r))
      case Abort =>
      case Resend => GivesUpOnlyWhenSpent(ch, p, want, s, r + 1, left);
      case ReadAgain => PollsGiveUp(ch, p, want, s, r + 1, left, polls - 1);
    }
  }

  // ---- one attempt, by the policy's own fields ----

  /** A read after which the attempt goes on reading: a foreign reply, always; anything else if the policy says
      so. */
  predicate Skipped(p: Policy, a: Answer, want: u16) {
    match a
    case Nothing => p.onNothing.ReadAgain?
    case LinkDown => p.onLinkDown.ReadAgain?
    case Datagram(b) => if b == [] then p.onEmpty.ReadAgain? else !Bears(a, want)
  }

  /** What the policy says about a read that brings no datagram of any length. */
  function Verdict(p: Policy, a: Answer): Reaction {
    if a.Nothing? then p.onNothing else if a.LinkDown? then p.onLinkDown else p.onEmpty
  }

  lemma {:induction false} PollsSkip(ch: Channel, p: Policy, want: u16, s: nat, r: nat, left: nat, polls: nat, j: nat)
    requires j <= polls && forall k | r <= k < r + j :: Skipped(p, ch.read(k), want)
    ensures Polls(ch, p, want, s, r, left, polls) == Polls(ch, p, want, s, r + j, left, polls - j)
    decreases j
  {
    if j > 0 {
      assert Skipped(p, ch.read(r), want);
      PollsSkip(ch, p, want, s, r + 1, left, polls - 1, j - 1);
    }
  }

  /** One attempt, from its send on, decides the call by the first read it does not skip: the reply if that bears
      the tag, else what the policy says; and it goes on to the next attempt when all its reads were skipped. */
  lemma AttemptExactly(ch: Channel, p: Policy, want: u16, s: nat, r: nat, left: nat, j: nat)
    requires left > 0 && j <= p.polls && forall k | r <= k < r + j :: Skipped(p, ch.read(k), want)
    ensures var o := Attempts(ch, p, want, s, r, left);
            if !ch.sendOk(s) then
              o == if p.onSendFail.Abort? then Outcome(None, s + 1, r) else Attempts(ch, p, want, s + 1, r, left - 1)
            else if j == p.polls then o == Attempts(ch, p, want, s + 1, r + j, left - 1)
            else if Bears(ch.read(r + j), want) then o == Outcome(Some(r + j), s + 1, r + j + 1)
            else if Skipped(p, ch.read(r + j), want) then true
            else if Verdict(p, ch.read(r + j)).Abort? then o == Outcome(None, s + 1, r + j + 1)
            else o == Attempts(ch, p, want, s + 1, r + j + 1, left - 1)
  {
    if ch.sendOk(s) {
      PollsSkip(ch, p, want, s + 1, r, left - 1, p.polls, j);
    }
  }

  lemma BehindForeign(ch: Channel, p: Policy, want: u16, s: nat, r: nat)
    ensures forall m | r <= m < r + p.polls && p.attempts > 0 && ch.sendOk(s) && Bears(ch.read(m), want)
                       && forall k | r <= k < m :: Foreign(ch.read(k), want) ::
              Attempts(ch, p, want, s, r, p.attempts) == Outcome(Some(m), s + 1, m + 1)
  {
    hide Attempts;
    forall m | r <= m < r + p.polls && p.attempts > 0 && ch.sendOk(s) && Bears(ch.read(m), want)
               && forall k | r <= k < m :: Foreign(ch.read(k), want)
      ensures Attempts(ch, p, want, s, r, p.attempts) == Outcome(Some(m), s + 1, m + 1)
    {
      assert forall k | r <= k < m :: Foreign(ch.read(k), want) && Skipped(p, ch.read(k), want);
      AttemptExactly(ch, p, want, s, r, p.attempts, m - r);
    }
  }

  // ---- the four copies ----

  /** A channel on which every send fares one way and every read another. */
  function Uniform(sendOk: bool, a: Answer): Channel { Channel(_ => sendOk, _ => a) }

  /** What a call costs on it, `sends` and `gets` at most, when no read bears the tag. */
  predicate Costs(p: Policy, sendOk: bool, a: Answer, want: u16, sends: nat, gets: nat) {
    Attempts(Uniform(sendOk, a), p, want, 0, 0, p.attempts) == Outcome(None, sends, gets)
  }

  lemma {:induction false} UniformCosts(p: Policy, sendOk: bool, a: Answer, want: u16, s: nat, r: nat, left: nat)
    requires !Bears(a, want) && p.polls > 0
    ensures var skip := Skipped(p, a, want);
            var per := if !sendOk then 0 else if skip then p.polls else 1;
            var once := left > 0 && (if !sendOk then p.onSendFail.Abort? else !skip && Verdict(p, a).Abort?);
            Attempts(Uniform(sendOk, a), p, want, s, r, left)
            == if once then Outcome(None, s + 1, r + per) else Outcome(None, s + left, r + left * per)
    decreases left
  {
    if left > 0 {
      var skip := Skipped(p, a, want);
      var per := if !sendOk then 0 else if skip then p.polls else 1;
      AttemptExactly(Uniform(sendOk, a), p, want, s, r, left, if skip then p.polls else 0);
      UniformCosts(p, sendOk, a, want, s + 1, r + per, left - 1);
      hide Attempts, Skipped, Verdict;
      assert left * per == (left - 1) * per + per;
      if left == 1 {
        assert Attempts(Uniform(sendOk, a), p, want, s + 1, r + per, 0) == Outcome(None, s + 1, r + per) by {
          NoAttempts(Uniform(sendOk, a), p, want, s + 1, r + per);
        }
      }
    }
  }

  lemma NoAttempts(ch: Channel, p: Policy, want: u16, s: nat, r: nat)
    ensures Attempts(ch, p, want, s, r, 0) == Outcome(None, s, r)
  {
  }

  /** How the four copies take failing sends, silence, a link that is down, an empty read, and nothing but foreign
      replies: m9_rpc, mesh_rpc, do_bridge, pump_fn. */
  lemma ReactionsOfTheCopies(want: u16, foreign: Bytes)
    requires Foreign(Datagram(foreign), want)
    ensures Costs(M9_RPC, false, Nothing, want, 2, 0) && Costs(MESH_RPC, false, Nothing, want, 1, 0)
    ensures Costs(DO_BRIDGE, false, Nothing, want, 4, 0) && Costs(PUMP_FN, false, Nothing, want, 8, 0)
    ensures Costs(M9_RPC, true, Nothing, want, 2, 2) && Costs(MESH_RPC, true, Nothing, want, 4, 4)
    ensures Costs(DO_BRIDGE, true, Nothing, want, 4, 4) && Costs(PUMP_FN, true, Nothing, want, 8, 48)
    ensures Costs(MESH_RPC, true, LinkDown, want, 1, 1)
    ensures Costs(DO_BRIDGE, true, LinkDown, want, 4, 4) && Costs(PUMP_FN, true, LinkDown, want, 8, 48)
    ensures Costs(M9_RPC, true, Datagram([]), want, 1, 1) && Costs(MESH_RPC, true, Datagram([]), want, 4, 4)
    ensures Costs(DO_BRIDGE, true, Datagram([]), want, 4, 4) && Costs(PUMP_FN, true, Datagram([]), want, 8, 48)
    ensures Costs(M9_RPC, true, Datagram(foreign), want, 2, 4) && Costs(MESH_RPC, true, Datagram(foreign), want, 4, 24)
    ensures Costs(DO_BRIDGE, true, Datagram(foreign), want, 4, 24)
    ensures Costs(PUMP_FN, true, Datagram(foreign), want, 8, 48)
  {
    hide Costs;
    TheFour(false, Nothing, want);
    TheFour(true, Nothing, want);
    TheFour(true, LinkDown, want);
    TheFour(true, Datagram([]), want);
    TheFour(true, Datagram(foreign), want);
  }

  lemma TheFour(sendOk: bool, a: Answer, want: u16)
    requires !Bears(a, want)
    ensures CostsAsSaid(M9_RPC, sendOk, a, want) && CostsAsSaid(MESH_RPC, sendOk, a, want)
    ensures CostsAsSaid(DO_BRIDGE, sendOk, a, want) && CostsAsSaid(PUMP_FN, sendOk, a, want)
  {
    hide Attempts;
    UniformCosts(M9_RPC, sendOk, a, want, 0, 0, 2);
    UniformCosts(MESH_RPC, sendOk, a, want, 0, 0, 4);
    UniformCosts(DO_BRIDGE, sendOk, a, want, 0, 0, 4);
    UniformCosts(PUMP_FN, sendOk, a, want, 0, 0, 8);
  }

  predicate CostsAsSaid(p: Policy, sendOk: bool, a: Answer, want: u16) {
    var skip := Skipped(p, a, want);
    var per := if !sendOk then 0 else if skip then p.polls else 1;
    var once := if !sendOk then p.onSendFail.Abort? else !skip && Verdict(p, a).Abort?;
    Costs(p, sendOk, a, want, if once then 1 else p.attempts, if once then per else p.attempts * per)
  }

  predicate Within(o: Outcome, s: nat, r: nat, sends: nat, gets: nat) {
    o.sends <= s + sends && o.gets <= r + gets
  }

  /** What one call may cost in each of the four copies. */
  lemma BudgetsOfTheCopies(ch: Channel, want: u16, s: nat, r: nat)
    ensures Within(Attempts(ch, M9_RPC, want, s, r, 2), s, r, 2, 4)
    ensures Within(Attempts(ch, MESH_RPC, want, s, r, 4), s, r, 4, 24)
    ensures Within(Attempts(ch, DO_BRIDGE, want, s, r, 4), s, r, 4, 24)
    ensures Within(Attempts(ch, PUMP_FN, want, s, r, 8), s, r, 8, 48)
  {
    hide Attempts;
    AttemptsHonest(ch, M9_RPC, want, s, r, 2);
    AttemptsHonest(ch, MESH_RPC, want, s, r, 4);
    AttemptsHonest(ch, DO_BRIDGE, want, s, r, 4);
    AttemptsHonest(ch, PUMP_FN, want, s, r, 8);
  }

  // ---- whose reply it is ----

  /** Every datagram the channel yields is a reply the peer made to one of the session's calls, carrying
      that call's tag; which call each answers, how late and how often, is arbitrary. */
  ghost predicate OnlyReplies(ch: Channel, tags: seq<u16>, origin: nat -> nat) {
    forall k :: ch.read(k).Datagram? && |ch.read(k).bytes| >= 7 ==>
                  origin(k) < |tags| && FrameTag(ch.read(k).bytes) == tags[origin(k)]
  }

  /** No other call of the list has this one's tag. */
  predicate OwnTag(tags: seq<u16>, call: nat)
    requires call < |tags|
  {
    forall j | 0 <= j < |tags| && j != call :: tags[j] != tags[call]
  }

  /** A call whose tag is its own returns, if it succeeds, a reply to itself, whatever is lost, duplicated or
      late, and every reply it passed over was to another call; it costs at most `attempts` sends and
      `attempts * polls` reads. */
  lemma CallGetsItsOwnReply(ch: Channel, p: Policy, tags: seq<u16>, origin: nat -> nat, call: nat, s: nat, r: nat)
    requires OnlyReplies(ch, tags, origin) && call < |tags| && OwnTag(tags, call)
    ensures var o := Attempts(ch, p, tags[call], s, r, p.attempts);
            && s <= o.sends <= s + p.attempts && r <= o.gets <= r + p.attempts * p.polls
            && (o.found.Some? ==> r <= o.found.value < o.gets && origin(o.found.value) == call)
            && forall k | r <= k < o.gets && o.found != Some(k)
                          && ch.read(k).Datagram? && |ch.read(k).bytes| >= 7 :: origin(k) != call
  {
    AttemptsHonest(ch, p, tags[call], s, r, p.attempts);
  }

  predicate OwnOrNone(ch: Channel, p: Policy, tags: seq<u16>, origin: nat -> nat, call: nat, s: nat, r: nat)
    requires call < |tags|
  {
    var o := Attempts(ch, p, tags[call], s, r, p.attempts);
    o.found.Some? ==> origin(o.found.value) == call
  }

  /** A channel that yields one reply to the j-th call, over and over. */
  function Haunted(late: Bytes): Channel { Channel(_ => true, _ => Datagram(late)) }

  function ReplyTagged(tag: u16): Bytes { [7, 0, 0, 0, 101, tag % 0x100, tag / 0x100] }

  lemma HauntedIsTaken(p: Policy, tags: seq<u16>, j: nat, call: nat)
    requires p.attempts > 0 && p.polls > 0 && j < |tags| && call < |tags| && tags[j] == tags[call]
    ensures OnlyReplies(Haunted(ReplyTagged(tags[j])), tags, _ => j)
    ensures Attempts(Haunted(ReplyTagged(tags[j])), p, tags[call], 0, 0, p.attempts).found == Some(0)
  {
    var late, tag := ReplyTagged(tags[j]), tags[j];
    assert late[5..7] == [tag % 0x100, tag / 0x100] && FrameTag(late) == tag;
    var ch := Haunted(late);
    assert Polls(ch, p, tags[call], 1, 0, p.attempts - 1, p.polls) == Outcome(Some(0), 1, 1);
  }

  /** Over every list of calls, those of other sessions included: a call is safe from the replies to the rest,
      on every channel and from any point on, if and only if none of them has its tag. */
  lemma OwnReplyExactly(p: Policy, tags: seq<u16>, call: nat)
    requires p.attempts > 0 && p.polls > 0 && call < |tags|
    ensures (forall ch: Channel, origin: nat -> nat, s: nat, r: nat | OnlyReplies(ch, tags, origin) ::
               OwnOrNone(ch, p, tags, origin, call, s, r))
            <==> OwnTag(tags, call)
  {
    if OwnTag(tags, call) {
      forall ch: Channel, origin: nat -> nat, s: nat, r: nat | OnlyReplies(ch, tags, origin)
        ensures OwnOrNone(ch, p, tags, origin, call, s, r)
      {
        CallGetsItsOwnReply(ch, p, tags, origin, call, s, r);
      }
    } else {
      var j :| 0 <= j < |tags| && j != call && tags[j] == tags[call];
      HauntedIsTaken(p, tags, j, call);
      assert !OwnOrNone(Haunted(ReplyTagged(tags[j])), p, tags, _ => j, call, 0, 0);
    }
  }

  /** Tags restart with every session, so over two sessions no call has its own. */
  lemma RestartedTagsAreShared(session: seq<u16>, call: nat)
    requires call < |session|
    ensures !OwnTag(session + session, call) && !OwnTag(session + session, |session| + call)
  {
    var tags := session + session;
    assert tags[call] == tags[|session| + call];
  }

  /** For instance a late reply to a call of the session before, bearing the same tag, is taken for the reply
      to this one. */
  lemma RestartedTagsTakeStaleReply(late: Bytes, p: Policy)
    requires |late| >= 7 && p.attempts > 0 && p.polls > 0
    ensures var ch := Channel(_ => true, _ => Datagram(late));
            var tags := [FrameTag(late), FrameTag(late)];
            var origin := (_: nat) => 0;
            && OnlyReplies(ch, tags, origin)
            && Attempts(ch, p, tags[1], 0, 0, p.attempts).found == Some(0) && origin(0) != 1
  {
    var ch := Channel(_ => true, _ => Datagram(late));
    assert Polls(ch, p, FrameTag(late), 1, 0, p.attempts - 1, p.polls) == Outcome(Some(0), 1, 1);
  }
}
