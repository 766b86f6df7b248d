/** The /net/aether conversation service as a state machine (dect_mesh/src/aether_net.c): what each
    fs operation and each received datagram does to the four conversation slots, and what holds of
    every run. AetherNet.dfy proves the in-place code against these functions. */
module Conversation {
  import opened Wire

  type Addr = a: Bytes | |a| == 6 witness [0, 0, 0, 0, 0, 0]

  const ZERO: Addr := [0, 0, 0, 0, 0, 0]
  const BCAST: Addr := [0xff, 0xff, 0xff, 0xff, 0xff, 0xff]
  const MAX_CONNS := 4
  const RXQ_DEPTH := 16
  const WRAP32 := 0x1_0000_0000

  datatype ConvState = Unconnected | Connected | Announced | Broadcast

  /** The mesh's two lookups at one moment: durable identity to route, and route to identity. */
  datatype Routes = Routes(addrOf: map<Addr, Addr>, euiOf: map<Addr, Addr>)

  /** One datagram handed up by the radio, with the lookups as they stood then. */
  datatype Arrival = Arrival(src: Addr, payload: Bytes, broadcast: bool, routes: Routes)

  /** A queued datagram; data == [] is what the reader takes for the hang-up sentinel. `stamp` is the
      index of the event that queued it and no operation branches on it; a sentinel has none. */
  datatype Dgram = Dgram(src: Addr, data: Bytes, stamp: Option<nat>)

  const EOF := Dgram(ZERO, [], None)

  /** What became of the arrivals a slot took, by event index. */
  datatype Ledger = Ledger(matched: set<nat>, dropped: set<nat>, purged: set<nat>, got: seq<nat>)

  /** One slot. `parked`: a reader blocks in k_msgq_get; `hand`: a datagram it has dequeued, not yet framed.
      `wakes`: whether purging its queue wakes a parked reader with an error. */
  datatype Conv = Conv(inUse: bool, state: ConvState, peer: Addr, rxq: seq<Dgram>,
                       parked: bool, hand: Option<Dgram>, ledger: Ledger, wakes: bool)

  datatype Command = Connect(addr: Option<Addr>) | Announce | Hangup | Unknown

  datatype Event =
    | Clone
    | Dial(peer: Addr)                 // conv_alloc plus the internal bind of a drain or a push
    | Ctl(slot: nat, cmd: Command)
    | ClunkCtl(slot: nat)
    | Arrive(arrival: Arrival)
    | BeginRead(slot: nat)             // k_msgq_get on the slot's queue
    | GiveUp(slot: nat)                // a timed get expires
    | FinishRead(slot: nat)            // the dequeued datagram is framed and returned

  datatype Service = Service(maxMsg: nat, convs: seq<Conv>, now: nat, rxDrop: nat)

  // ---- one slot ----

  function Ident(a: Arrival): Addr {
    if !a.broadcast && a.src in a.routes.euiOf then a.routes.euiOf[a.src] else a.src
  }

  /** The receive-time match. */
  predicate Takes(c: Conv, a: Arrival) {
    if a.broadcast then c.state.Broadcast?
    else if c.state.Announced? then true
    else if c.state.Connected? then
      || (c.peer in a.routes.addrOf && a.routes.addrOf[c.peer] == a.src)
      || c.peer == Ident(a)
      || c.peer == a.src
    else false
  }

  function AsDgram(a: Arrival, maxMsg: nat, now: nat): Dgram {
    Dgram(Ident(a), if |a.payload| > maxMsg then a.payload[..maxMsg] else a.payload, Some(now))
  }

  /** k_msgq_put without waiting: straight to a parked reader, else to a free place, else refused. */
  function Put(c: Conv, d: Dgram): (Conv, bool) {
    if c.parked then (c.(parked := false, hand := Some(d)), true)
    else if |c.rxq| < RXQ_DEPTH then (c.(rxq := c.rxq + [d]), true)
    else (c, false)
  }

  function Stamps(q: seq<Dgram>): seq<nat> {
    if q == [] then [] else (if q[0].stamp.Some? then [q[0].stamp.value] else []) + Stamps(q[1..])
  }

  function Elements(s: seq<nat>): set<nat> { set x | x in s }

  /** k_msgq_purge. A get that fails because of it reads as EOF, as the sentinel does. */
  function Purge(c: Conv): Conv {
    var c' := c.(rxq := [], ledger := c.ledger.(purged := c.ledger.purged + Elements(Stamps(c.rxq))));
    if c.wakes && c.parked then c'.(parked := false, hand := Some(EOF)) else c'
  }

  function DoHangup(c: Conv): Conv {
    Put(Purge(c.(state := Unconnected, peer := ZERO)), EOF).0
  }

  function Free(c: Conv): Conv {
    if c.inUse then Put(Purge(c), EOF).0.(inUse := false, state := Unconnected) else c
  }

  /** k_msgq_init empties the queue and forgets whoever waited on it. */
  function Alloc(c: Conv): Conv {
    c.(inUse := true, state := Unconnected, peer := ZERO, rxq := [], parked := false)
  }

  function Bind(c: Conv, addr: Addr): Conv {
    if addr == BCAST then c.(state := Broadcast) else c.(state := Connected, peer := addr)
  }

  /** ctl_exec; false is -EINVAL. */
  function CtlExec(c: Conv, cmd: Command): (Conv, bool) {
    match cmd
    case Connect(addr) => if c.state.Unconnected? && addr.Some? then (Bind(c, addr.value), true) else (c, false)
    case Announce => if c.state.Unconnected? then (c.(state := Announced), true) else (c, false)
    case Hangup => (DoHangup(c), true)
    case Unknown => (c, false)
  }

  /** The slot's share of the receive fan-out. */
  function Receive(c: Conv, a: Arrival, maxMsg: nat, now: nat): Conv {
    if !c.inUse || !Takes(c, a) then c else
    var (c', queued) := Put(c, AsDgram(a, maxMsg, now));
    c'.(ledger := c.ledger.(
        matched := c.ledger.matched + {now},
        dropped := if queued then c.ledger.dropped else c.ledger.dropped + {now},
        got := if c.parked then c.ledger.got + [now] else c.ledger.got))
  }

  predicate Drops(c: Conv, a: Arrival) {
    c.inUse && Takes(c, a) && !c.parked && |c.rxq| >= RXQ_DEPTH
  }

  /** One reader per conversation: a get while another is outstanding does nothing here. */
  function Get(c: Conv): Conv {
    if c.parked || c.hand.Some? then c
    else if c.rxq == [] then c.(parked := true)
    else c.(hand := Some(c.rxq[0]), rxq := c.rxq[1..],
            ledger := c.ledger.(got := c.ledger.got + Stamps([c.rxq[0]])))
  }

  datatype ReadResult = Delivered(bytes: Bytes) | TooSmall

  predicate SourcePrefixed(s: ConvState) { s.Announced? || s.Broadcast? }

  /** What the data read returns for a dequeued datagram, given the state at that moment. */
  function Frame(s: ConvState, d: Dgram, count: nat): ReadResult {
    if d.data == [] then Delivered([])
    else if count < |d.data| + (if SourcePrefixed(s) then 6 else 0) then TooSmall
    else Delivered(if SourcePrefixed(s) then d.src + d.data else d.data)
  }

  // ---- the service ----

  /** Index of the first free slot, or the number of slots. */
  function FirstFree(convs: seq<Conv>): (i: nat)
    ensures i <= |convs|
    ensures i < |convs| ==> !convs[i].inUse
    ensures forall j | 0 <= j < i :: convs[j].inUse
  {
    if convs == [] then 0 else if !convs[0].inUse then 0 else 1 + FirstFree(convs[1..])
  }

  function ConvStep(c: Conv, j: nat, e: Event, free: nat, maxMsg: nat, now: nat): Conv {
    match e
    case Clone => if j == free then Alloc(c) else c
    case Dial(peer) => if j == free then Alloc(c).(peer := peer, state := Connected) else c
    case Ctl(slot, cmd) => if j == slot then CtlExec(c, cmd).0 else c
    case ClunkCtl(slot) => if j == slot then Free(c) else c
    case Arrive(a) => Receive(c, a, maxMsg, now)
    case BeginRead(slot) => if j == slot then Get(c) else c
    case GiveUp(slot) => if j == slot then c.(parked := false) else c
    case FinishRead(slot) => if j == slot then c.(hand := None) else c
  }

  function DropCount(convs: seq<Conv>, a: Arrival): nat {
    if convs == [] then 0
    else DropCount(convs[..|convs| - 1], a) + if Drops(convs[|convs| - 1], a) then 1 else 0
  }

  function Step(s: Service, e: Event): Service {
    var convs' := seq(|s.convs|, j requires 0 <= j < |s.convs| =>
      ConvStep(s.convs[j], j, e, FirstFree(s.convs), s.maxMsg, s.now));
    s.(convs := convs', now := s.now + 1,
       rxDrop := if e.Arrive? then (s.rxDrop + DropCount(s.convs, e.arrival)) % WRAP32 else s.rxDrop)
  }

  function Idle(wakes: bool): Conv {
    Conv(false, Unconnected, ZERO, [], false, None, Ledger({}, {}, {}, []), wakes)
  }

  function Boot(maxMsg: nat, wakes: bool): Service {
    Service(maxMsg, seq(MAX_CONNS, _ => Idle(wakes)), 0, 0)
  }

  function Run(maxMsg: nat, wakes: bool, log: seq<Event>): (s: Service)
    ensures s.maxMsg == maxMsg && |s.convs| == MAX_CONNS && s.now == |log| && s.rxDrop < WRAP32
  {
    if log == [] then Boot(maxMsg, wakes) else Step(Run(maxMsg, wakes, log[..|log| - 1]), log[|log| - 1])
  }

  // ---- what every step keeps, one slot at a time ----

  predicate Ascending(s: seq<nat>) { forall i, j | 0 <= i < j < |s| :: s[i] < s[j] }

  /** d arrived at the event it is stamped with, and the slot as it stands now would take it. */
  predicate FromCurrentBinding(c: Conv, d: Dgram, log: seq<Event>, maxMsg: nat) {
    && d.stamp.Some? && d.stamp.value < |log|
    && var e := log[d.stamp.value];
       e.Arrive? && d == AsDgram(e.arrival, maxMsg, d.stamp.value) && c.inUse && Takes(c, e.arrival)
  }

  predicate Balanced(c: Conv) {
    var l, queued := c.ledger, Elements(Stamps(c.rxq));
    && l.matched == l.dropped + l.purged + Elements(l.got) + queued
    && l.dropped !! l.purged !! Elements(l.got) !! queued
    && Ascending(l.got + Stamps(c.rxq))
  }

  /** The binding/queue agreement: beyond a sentinel at the head, everything queued arrived under a
      match that the slot's present state and peer still give. */
  predicate QueueGood(c: Conv, log: seq<Event>, maxMsg: nat) {
    && |c.rxq| <= RXQ_DEPTH
    && (c.parked ==> c.rxq == [] && c.hand.None?)
    && forall k | 0 <= k < |c.rxq| :: (k == 0 && c.rxq[k] == EOF) || FromCurrentBinding(c, c.rxq[k], log, maxMsg)
  }

  predicate LedgerGood(c: Conv, now: nat) {
    Balanced(c) && forall t | t in c.ledger.matched :: t < now
  }

  predicate Good(c: Conv, log: seq<Event>, maxMsg: nat) {
    QueueGood(c, log, maxMsg) && LedgerGood(c, |log|)
  }

  lemma {:induction false} StampsAppend(p: seq<Dgram>, q: seq<Dgram>)
    ensures Stamps(p + q) == Stamps(p) + Stamps(q)
  {
    if p == [] {
      assert p + q == q;
    } else {
      var head := if p[0].stamp.Some? then [p[0].stamp.value] else [];
      assert (p + q)[1..] == p[1..] + q;
      StampsAppend(p[1..], q);
      assert head + (Stamps(p[1..]) + Stamps(q)) == head + Stamps(p[1..]) + Stamps(q);
    }
  }

  /** A free or unbound slot holds at most the sentinel. */
  lemma NoDataLeft(c: Conv, log: seq<Event>, maxMsg: nat)
    requires QueueGood(c, log, maxMsg)
    requires !c.inUse || c.state.Unconnected?
    ensures c.rxq == [] || c.rxq == [EOF]
    ensures Stamps(c.rxq) == []
  {
    assert |c.rxq| > 1 ==> !FromCurrentBinding(c, c.rxq[1], log, maxMsg);
    assert |c.rxq| > 0 ==> !FromCurrentBinding(c, c.rxq[0], log, maxMsg);
  }

  lemma StillFromBinding(c: Conv, log: seq<Event>, e: Event, maxMsg: nat)
    ensures forall d | FromCurrentBinding(c, d, log, maxMsg) :: FromCurrentBinding(c, d, log + [e], maxMsg)
  {
    forall d | FromCurrentBinding(c, d, log, maxMsg)
      ensures FromCurrentBinding(c, d, log + [e], maxMsg)
    {
      assert (log + [e])[d.stamp.value] == log[d.stamp.value];
    }
  }

  lemma ReceiveKeepsQueue(c: Conv, a: Arrival, log: seq<Event>, maxMsg: nat)
    requires QueueGood(c, log, maxMsg)
    ensures QueueGood(Receive(c, a, maxMsg, |log|), log + [Arrive(a)], maxMsg)
  {
    StillFromBinding(c, log, Arrive(a), maxMsg);
    assert (log + [Arrive(a)])[|log|] == Arrive(a);
    if c.inUse && Takes(c, a) {
      assert FromCurrentBinding(c, AsDgram(a, maxMsg, |log|), log + [Arrive(a)], maxMsg);
    }
  }

  /** An event that is not the radio's or the reader's leaves the slot alone or leaves no data in it. */
  lemma ControlEmptiesOrSkips(c: Conv, j: nat, e: Event, free: nat, log: seq<Event>, maxMsg: nat)
    requires QueueGood(c, log, maxMsg)
    requires j == free ==> !c.inUse
    requires !e.Arrive? && !e.BeginRead? && !e.GiveUp? && !e.FinishRead?
    ensures var c' := ConvStep(c, j, e, free, maxMsg, |log|);
            c' == c || ((c'.rxq == [] || c'.rxq == [EOF]) && (c'.parked ==> c'.rxq == [] && c'.hand.None?))
  {
    hide FromCurrentBinding, Stamps, Elements;
    if !c.inUse || c.state.Unconnected? {
      NoDataLeft(c, log, maxMsg);
    }
  }

  lemma ConvStepKeepsQueue(c: Conv, j: nat, e: Event, free: nat, log: seq<Event>, maxMsg: nat)
    requires QueueGood(c, log, maxMsg)
    requires j == free ==> !c.inUse
    ensures QueueGood(ConvStep(c, j, e, free, maxMsg, |log|), log + [e], maxMsg)
  {
    if e.Arrive? {
      ReceiveKeepsQueue(c, e.arrival, log, maxMsg);
    } else {
      StillFromBinding(c, log, e, maxMsg);
      if e.BeginRead? || e.GiveUp? || e.FinishRead? {
        ReaderKeepsQueue(c, log + [e], maxMsg);
      } else {
        hide FromCurrentBinding, ConvStep;
        ControlEmptiesOrSkips(c, j, e, free, log, maxMsg);
      }
    }
  }

  lemma ReaderKeepsQueue(c: Conv, log: seq<Event>, maxMsg: nat)
    requires QueueGood(c, log, maxMsg)
    ensures QueueGood(Get(c), log, maxMsg)
    ensures QueueGood(c.(parked := false), log, maxMsg)
    ensures QueueGood(c.(hand := None), log, maxMsg)
  {
    forall c' | c' in {Get(c), c.(parked := false), c.(hand := None)}, d | FromCurrentBinding(c, d, log, maxMsg)
      ensures FromCurrentBinding(c', d, log, maxMsg)
    {
    }
  }

  // ---- conservation ----

  lemma Split(h: seq<nat>, t: seq<nat>, before: seq<nat>)
    requires Ascending(before + (h + t))
    ensures Elements(before + h) == Elements(before) + Elements(h)
    ensures Elements(h + t) == Elements(h) + Elements(t)
    ensures Elements(h) !! Elements(t)
    ensures Ascending((before + h) + t) && Ascending(before)
  {
    var all := before + (h + t);
    assert (before + h) + t == all;
    assert all[..|before|] == before;
    forall x, y | x in h && y in t
      ensures x < y
    {
      var i :| 0 <= i < |h| && h[i] == x;
      var j :| 0 <= j < |t| && t[j] == y;
      assert all[|before| + i] == x && all[|before| + |h| + j] == y;
    }
  }

  lemma PurgeBalances(c: Conv)
    requires Balanced(c)
    ensures Balanced(Purge(c)) && Purge(c).ledger.matched == c.ledger.matched
  {
    Split([], Stamps(c.rxq), c.ledger.got);
    assert c.ledger.got + [] == c.ledger.got;
    assert [] + Stamps(c.rxq) == Stamps(c.rxq);
  }

  lemma PutEofBalances(c: Conv)
    requires Balanced(c)
    ensures Balanced(Put(c, EOF).0) && Put(c, EOF).0.ledger == c.ledger
  {
    StampsAppend(c.rxq, [EOF]);
    assert Stamps([EOF]) == [];
    assert Stamps(c.rxq) + [] == Stamps(c.rxq);
  }

  lemma GetBalances(c: Conv)
    requires Balanced(c)
    ensures Balanced(Get(c)) && Get(c).ledger.matched == c.ledger.matched
  {
    if c.rxq != [] {
      var h, t := Stamps([c.rxq[0]]), Stamps(c.rxq[1..]);
      assert c.rxq == [c.rxq[0]] + c.rxq[1..];
      StampsAppend([c.rxq[0]], c.rxq[1..]);
      assert Stamps(c.rxq) == h + t;
      Split(h, t, c.ledger.got);
    }
  }

  lemma SnocAscending(s: seq<nat>, now: nat)
    requires Ascending(s) && forall x | x in s :: x < now
    ensures Ascending(s + [now])
  {
    var grown := s + [now];
    forall i, j | 0 <= i < j < |grown|
      ensures grown[i] < grown[j]
    {
      assert grown[i] == s[i] && s[i] in s;
      assert j < |s| ==> grown[j] == s[j];
    }
  }

  lemma ElementsSnoc(s: seq<nat>, now: nat)
    ensures Elements(s + [now]) == Elements(s) + {now}
  {
  }

  lemma AppendFresh(s: seq<nat>, t: seq<nat>, now: nat)
    requires Ascending(s + t)
    requires forall x | x in s + t :: x < now
    ensures Ascending(s + (t + [now])) && Elements(t + [now]) == Elements(t) + {now}
    ensures t == [] ==> Ascending((s + [now]) + t) && Elements(s + [now]) == Elements(s) + {now}
  {
    hide Ascending, Elements;
    SnocAscending(s + t, now);
    assert s + (t + [now]) == (s + t) + [now];
    ElementsSnoc(t, now);
    if t == [] {
      assert (s + [now]) + t == (s + t) + [now];
      ElementsSnoc(s, now);
    }
  }

  lemma ReceiveBalances(c: Conv, a: Arrival, maxMsg: nat, now: nat)
    requires LedgerGood(c, now) && (c.parked ==> c.rxq == [])
    ensures LedgerGood(Receive(c, a, maxMsg, now), now + 1)
  {
    hide Takes, Ascending;
    if c.inUse && Takes(c, a) {
      var d := AsDgram(a, maxMsg, now);
      StampsAppend(c.rxq, [d]);
      assert Stamps([d]) == [now];
      var g, q := c.ledger.got, Stamps(c.rxq);
      forall x | x in g + q
        ensures x < now
      {
        assert x in Elements(g) || x in Elements(q);
        assert x in c.ledger.matched;
      }
      AppendFresh(g, q, now);
    }
  }

  lemma HangupBalances(c: Conv)
    requires Balanced(c)
    ensures Balanced(DoHangup(c)) && DoHangup(c).ledger.matched == c.ledger.matched
    ensures Balanced(Free(c)) && Free(c).ledger.matched == c.ledger.matched
  {
    var c1 := c.(state := Unconnected, peer := ZERO);
    PurgeBalances(c1);
    PutEofBalances(Purge(c1));
    PurgeBalances(c);
    PutEofBalances(Purge(c));
  }

  lemma ConvStepKeepsLedger(c: Conv, j: nat, e: Event, free: nat, log: seq<Event>, maxMsg: nat)
    requires Good(c, log, maxMsg)
    requires j == free ==> !c.inUse
    ensures LedgerGood(ConvStep(c, j, e, free, maxMsg, |log|), |log| + 1)
  {
    hide FromCurrentBinding, Balanced, Receive, Get, Free, DoHangup, Stamps, Elements;
    if e.Arrive? {
      ReceiveBalances(c, e.arrival, maxMsg, |log|);
    } else if e.Clone? || e.Dial? {
      if j == free {
        NoDataLeft(c, log, maxMsg);
        NoStamps();
        SameStampsBalance(c, Alloc(c));
        SameStampsBalance(Alloc(c), ConvStep(c, j, e, free, maxMsg, |log|));
      }
    } else if e.BeginRead? {
      GetBalances(c);
    } else {
      HangupBalances(c);
      if !(e.ClunkCtl? || (e.Ctl? && e.cmd.Hangup?)) {
        SameStampsBalance(c, ConvStep(c, j, e, free, maxMsg, |log|));
      }
    }
  }

  lemma NoStamps()
    ensures Stamps([]) == []
  {
  }

  lemma SameStampsBalance(c: Conv, c': Conv)
    requires Balanced(c) && c'.ledger == c.ledger && Stamps(c'.rxq) == Stamps(c.rxq)
    ensures Balanced(c')
  {
    hide Stamps, Elements, Ascending;
  }
}
