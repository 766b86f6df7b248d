/** Live re-targeting in the chat client (tools/achat/achat_core.c): a command process that hangs the
    conversation up and a reader process that connects it again when the hang-up's EOF reaches it,
    sharing one lock, against the conversation service of Conversation.dfy. A read the relay gives up on
    stays parked at the server (dect_relay/src/main.c:319-327), ahead of the reader's next one. */
module Retarget {
  import opened Wire
  import opened Conversation

  /** The reader process: reading covers the call in flight; AtEof has a 0-byte read and wants the lock;
      Relinked has written its connect and still holds it. */
  datatype ReaderPc = Top | Reading | AtEof | Deciding | Relinked

  /** The command process: between taking the lock and releasing it. */
  datatype TypistPc = AtPrompt | HangingUp | HungUp(ok: bool)

  /** What happens to a ctl write on its way through the relay: done and reported as it went, done
      but reported as failed, or lost. */
  datatype Fate = Reported | ReplyLost | RequestLost

  /** What became of the last /connect: its hang-up, its connect, whether the conversation was already
      bound to the address when the hang-up was written, and whether an abandoned read got the EOF. No
      step branches on it. */
  datatype Tale = Tale(hung: Option<Fate>, wasBound: bool, swallowed: bool, linked: Option<Fate>)

  const UNTOLD := Tale(None, false, false, None)

  /** `conv.parked` and `conv.hand` are the reader's own read; `stale` abandoned ones are parked ahead of
      it. `dst` is g_dst as the server would parse it. */
  datatype State = State(conv: Conv, stale: nat, reader: ReaderPc, typist: TypistPc,
                         switching: bool, dst: Option<Addr>, tale: Tale)

  datatype Step =
    | Command(dst: Option<Addr>)   // /connect: takes the lock, sets g_dst and switching
    | WriteHangup(fate: Fate)
    | Unlock                       // the command process lets go
    | StartRead                    // fsread reaches the server
    | EndRead                      // the server's answer reaches the reader
    | ReadExpires                  // the relay gives up on a long quiet read; the server is not told
    | TakeLock                     // the reader, at EOF
    | WriteConnect(fate: Fate)     // the reader, under the lock: ignore a stray EOF, or connect
    | ReleaseLock
    | Datagram(arrival: Arrival)

  predicate ReaderHolds(s: State) { s.reader.Deciding? || s.reader.Relinked? }
  predicate TypistHolds(s: State) { !s.typist.AtPrompt? }

  predicate Enabled(s: State, step: Step) {
    match step
    case Command(_) => s.typist.AtPrompt? && !ReaderHolds(s)
    case WriteHangup(_) => s.typist.HangingUp?
    case Unlock => s.typist.HungUp?
    case StartRead => s.reader.Top?
    case EndRead => s.reader.Reading? && s.conv.hand.Some?
    case ReadExpires => s.reader.Reading? && s.conv.parked
    case TakeLock => s.reader.AtEof? && !TypistHolds(s)
    case WriteConnect(_) => s.reader.Deciding?
    case ReleaseLock => s.reader.Relinked?
    case Datagram(_) => true
  }

  /** The conversation is bound to what the user asked for. */
  predicate BoundTo(c: Conv, dst: Option<Addr>) {
    && dst.Some?
    && if dst.value == BCAST then c.state.Broadcast? else c.state.Connected? && c.peer == dst.value
  }

  /** A hang-up at the server. A purge that wakes sends every parked read off with an EOF; otherwise the
      sentinel goes to the oldest of them. */
  function HangUpOldest(c: Conv, stale: nat): (Conv, nat) {
    if stale > 0 && !c.wakes then (Purge(c.(state := Unconnected, peer := ZERO)), stale - 1) else (DoHangup(c), 0)
  }

  /** A datagram the conversation takes goes to the oldest parked read. */
  function ReceiveOldest(c: Conv, stale: nat, a: Arrival): (Conv, nat) {
    if stale > 0 && Takes(c, a) then (c, stale - 1) else (Receive(c, a, |a.payload|, 0), stale)
  }

  /** A 0-byte read is on its way: queued at the head, dequeued for the reader, or with the reader. */
  predicate EofComing(s: State) {
    || s.reader.AtEof? || s.reader.Deciding?
    || (s.conv.hand.Some? && s.conv.hand.value.data == [])
    || s.conv.rxq == [EOF]
  }

  /** A hang-up now would lose its EOF to an abandoned read. */
  predicate Swallows(s: State) { s.stale > 0 && !s.conv.wakes && !EofComing(s) }

  function Next(s: State, step: Step): State
    requires Enabled(s, step)
  {
    match step
    case Command(dst) => s.(typist := HangingUp, dst := dst, switching := true, tale := UNTOLD)
    case WriteHangup(fate) =>
      var (c, stale) := if fate.RequestLost? then (s.conv, s.stale) else HangUpOldest(s.conv, s.stale);
      s.(typist := HungUp(fate.Reported?), conv := c, stale := stale,
         tale := Tale(Some(fate), BoundTo(s.conv, s.dst), Swallows(s), None))
    case Unlock => s.(typist := AtPrompt, switching := s.switching && s.typist.ok)
    case StartRead => s.(reader := Reading, conv := Get(s.conv))
    case EndRead => s.(reader := if s.conv.hand.value.data == [] then AtEof else Top, conv := s.conv.(hand := None))
    case ReadExpires => s.(reader := Top, conv := s.conv.(parked := false), stale := s.stale + 1)
    case TakeLock => s.(reader := Deciding)
    case WriteConnect(fate) =>
      if !s.switching then s.(reader := Top) else
      s.(reader := Relinked, conv := if fate.RequestLost? then s.conv else CtlExec(s.conv, Connect(s.dst)).0,
         tale := s.tale.(linked := Some(fate)))
    case ReleaseLock => s.(reader := Top, switching := false)
    case Datagram(a) =>
      var (c, stale) := ReceiveOldest(s.conv, s.stale, a);
      s.(conv := c, stale := stale)
  }

  /** The program as threadmain leaves it: bound to its first address, the reader about to read. */
  predicate Start(s: State) {
    && s.dst.Some? && s.conv == Bind(Alloc(Idle(s.conv.wakes)), s.dst.value) && s.stale == 0
    && s.reader.Top? && s.typist.AtPrompt? && !s.switching && s.tale == UNTOLD
  }

  /** The switch the last /connect asked for has been carried out, as far as its writes tell: the hang-up
      was reported done, the connect got through and its address parses; or the hang-up never got through
      and the conversation was bound to that address all along; or there has been no /connect. */
  predicate Arrived(t: Tale, dst: Option<Addr>) {
    || t.hung.None?
    || (t.hung == Some(Reported) && t.linked.Some? && t.linked != Some(RequestLost) && dst.Some?)
    || (t.hung == Some(RequestLost) && t.wasBound)
  }

  predicate Waiting(s: State) {
    s.switching && !s.reader.Relinked? && (s.typist.AtPrompt? || s.typist == HungUp(true))
  }

  predicate Queues(s: State) {
    && s.conv.inUse
    && (s.conv.parked || s.stale > 0 ==> s.conv.rxq == [])
    && (s.conv.parked ==> s.conv.hand.None?)
    && (s.reader.Reading? <==> s.conv.parked || s.conv.hand.Some?)
  }

  predicate Inv(s: State) {
    && Queues(s)
    && !(ReaderHolds(s) && TypistHolds(s))
    && (TypistHolds(s) || s.reader.Relinked? ==> s.switching)
    // the rendezvous
    && (Waiting(s) ==>
          && s.conv.state.Unconnected? && (s.conv.rxq == [] || s.conv.rxq == [EOF])
          && (EofComing(s) <==> !s.tale.swallowed))
    && (Waiting(s) || s.reader.Relinked? ==> s.tale.hung == Some(Reported))
    // the outcome
    && (s.reader.Relinked? ==> s.tale.linked.Some?)
    && (s.typist == HungUp(false) ==> s.tale.hung.Some? && s.tale.hung != Some(Reported))
    && (s.reader.Relinked? || s.typist == HungUp(false) || (!s.switching && s.typist.AtPrompt?) ==>
          (BoundTo(s.conv, s.dst) <==> Arrived(s.tale, s.dst)))
  }

  lemma NextKeeps(s: State, step: Step)
    requires Inv(s) && Enabled(s, step)
    ensures Inv(Next(s, step))
  {
    hide Ident, Stamps;
  }

  /** A hang-up that gets through puts an EOF on its way to the reader if and only if its purge wakes parked
      reads, or no abandoned one is ahead of the reader's own, or an EOF was on its way already. */
  lemma HangupReachesReader(s: State, fate: Fate)
    requires Inv(s) && s.typist.HangingUp? && !fate.RequestLost?
    ensures EofComing(Next(s, WriteHangup(fate))) <==> s.conv.wakes || s.stale == 0 || EofComing(s)
  {
    hide Stamps;
  }

  // ---- every interleaving ----

  /** A proposed step that is not enabled does not happen. */
  function Move(s: State, step: Step): State {
    if Enabled(s, step) then Next(s, step) else s
  }

  function Exec(s: State, steps: seq<Step>): State
    decreases |steps|
  {
    if steps == [] then s else Exec(Move(s, steps[0]), steps[1..])
  }

  /** The address of the last /connect that took the lock, `sofar` if there is none. */
  function LastRequest(s: State, steps: seq<Step>, sofar: Option<Addr>): Option<Addr>
    decreases |steps|
  {
    if steps == [] then sofar
    else LastRequest(Move(s, steps[0]), steps[1..],
                     if steps[0].Command? && Enabled(s, steps[0]) then steps[0].dst else sofar)
  }

  lemma MoveKeeps(s: State, step: Step)
    requires Inv(s)
    ensures Inv(Move(s, step))
    ensures Move(s, step).dst == if step.Command? && Enabled(s, step) then step.dst else s.dst
  {
    hide Inv;
    if Enabled(s, step) {
      NextKeeps(s, step);
    }
  }

  lemma {:induction false} ExecKeeps(s: State, steps: seq<Step>)
    requires Inv(s)
    ensures Inv(Exec(s, steps))
    ensures Exec(s, steps).dst == LastRequest(s, steps, s.dst)
    decreases |steps|
  {
    if steps != [] {
      hide Inv, Move;
      MoveKeeps(s, steps[0]);
      ExecKeeps(Move(s, steps[0]), steps[1..]);
    }
  }

  lemma StartIsGood(s: State)
    requires Start(s)
    ensures Inv(s)
  {
  }

  /** Whatever the interleaving: while a switch is pending and the command process is at its prompt, the
      conversation is unbound, and a 0-byte read is on its way to the reader if and only if no abandoned read
      swallowed the hang-up's; and a connect is only ever written to an unconnected conversation. */
  lemma PendingSwitchHasEofComing(s: State, steps: seq<Step>)
    requires Start(s)
    ensures var r := Exec(s, steps);
            && (r.switching && r.typist.AtPrompt? && !r.reader.Relinked? ==>
                  r.conv.state.Unconnected? && (EofComing(r) <==> !r.tale.swallowed))
            && (r.reader.Deciding? && r.switching ==>
                  r.conv.state.Unconnected? && CtlExec(r.conv, Connect(r.dst)).1 == r.dst.Some?)
  {
    StartIsGood(s);
    ExecKeeps(s, steps);
  }

  /** Once no switch is pending the conversation is bound to the last address asked for, rapid repeats
      included, if and only if the writes of the last /connect fared as Arrived says. */
  lemma SettledExactly(s: State, steps: seq<Step>)
    requires Start(s)
    ensures var r := Exec(s, steps);
            !r.switching && r.typist.AtPrompt? ==>
              (BoundTo(r.conv, LastRequest(s, steps, s.dst)) <==> Arrived(r.tale, r.dst))
  {
    StartIsGood(s);
    ExecKeeps(s, steps);
  }

  // ---- whether a pending switch completes ----

  /** A switch is pending and the command process is at its prompt. */
  predicate Pending(s: State) {
    Inv(s) && s.switching && s.typist.AtPrompt? && s.dst.Some?
  }

  lemma ReadBringsEof(s: State)
    requires Pending(s) && EofComing(s) && !s.reader.Relinked?
    ensures var r := Move(Move(Move(s, EndRead), StartRead), EndRead);
            Pending(r) && (r.reader.AtEof? || r.reader.Deciding?) && r.dst == s.dst
  {
    hide Ident, Stamps, CtlExec;
  }

  lemma LockAndConnect(s: State)
    requires Pending(s) && (s.reader.AtEof? || s.reader.Deciding?)
    ensures var r := Move(Move(Move(s, TakeLock), WriteConnect(Reported)), ReleaseLock);
            !r.switching && BoundTo(r.conv, s.dst)
  {
    hide Ident, Stamps;
  }

  const READER_MOVES := [EndRead, StartRead, EndRead, TakeLock, WriteConnect(Reported), ReleaseLock]

  lemma SixMoves(s: State)
    ensures var r := Move(Move(Move(s, EndRead), StartRead), EndRead);
            Exec(s, READER_MOVES) == Move(Move(Move(r, TakeLock), WriteConnect(Reported)), ReleaseLock)
  {
    hide Move;
    var last := [TakeLock, WriteConnect(Reported), ReleaseLock];
    ExecThree(s, EndRead, StartRead, EndRead, last);
    ExecThree(Move(Move(Move(s, EndRead), StartRead), EndRead), TakeLock, WriteConnect(Reported), ReleaseLock, []);
    assert [EndRead, StartRead, EndRead] + last == READER_MOVES && last + [] == last;
  }

  /** With the command process at its prompt and the connect not yet written: six moves of the reader alone
      (those not enabled fall away) bind the conversation to the pending address if and only if an EOF is on
      its way to it. */
  lemma ReaderAloneCompletesExactly(s: State)
    requires Pending(s) && !s.reader.Relinked?
    ensures var r := Exec(s, READER_MOVES);
            !r.switching && BoundTo(r.conv, s.dst) <==> EofComing(s)
  {
    hide Move, Pending, BoundTo, EofComing;
    SixMoves(s);
    if EofComing(s) {
      ReadBringsEof(s);
      LockAndConnect(Move(Move(Move(s, EndRead), StartRead), EndRead));
    } else {
      NothingElseHelps(s, READER_MOVES);
      PendingIsInv(Exec(s, READER_MOVES));
    }
  }

  /** So a /connect whose hang-up is reported done is completed by the reader if and only if the purge wakes
      parked reads or, when the hang-up is written, no abandoned one is parked at the server or an EOF is on
      its way already. */
  lemma SwitchCompletesExactly(s: State)
    requires Inv(s) && s.typist.HangingUp? && s.dst.Some?
    ensures var r := Exec(Move(Move(s, WriteHangup(Reported)), Unlock), READER_MOVES);
            !r.switching && BoundTo(r.conv, s.dst) <==> s.conv.wakes || s.stale == 0 || EofComing(s)
  {
    var t := Move(Move(s, WriteHangup(Reported)), Unlock);
    HangupReachesReader(s, Reported);
    UnlockedIsPending(s);
    hide Inv, EofComing, Move, BoundTo;
    ReaderAloneCompletesExactly(t);
  }

  lemma UnlockedIsPending(s: State)
    requires Inv(s) && s.typist.HangingUp? && s.dst.Some?
    ensures var t := Move(Move(s, WriteHangup(Reported)), Unlock);
            && Pending(t) && !t.reader.Relinked? && t.dst == s.dst
            && EofComing(t) == EofComing(Next(s, WriteHangup(Reported)))
  {
    hide Stamps;
  }

  /** And without one nothing the reader, the relay or the mesh can do completes it: only another /connect. */
  lemma {:induction false} NothingElseHelps(s: State, steps: seq<Step>)
    requires Pending(s) && !s.reader.Relinked? && !EofComing(s)
    requires forall step | step in steps :: !step.Command?
    ensures var r := Exec(s, steps);
            Pending(r) && !EofComing(r) && !r.reader.Relinked? && r.conv.state.Unconnected? && r.dst == s.dst
    decreases |steps|
  {
    if steps != [] {
      assert steps[0] in steps;
      StaysStuck(s, steps[0]);
      hide Move, Pending, EofComing;
      NothingElseHelps(Move(s, steps[0]), steps[1..]);
    }
  }

  lemma StaysStuck(s: State, step: Step)
    requires Pending(s) && !s.reader.Relinked? && !EofComing(s) && !step.Command?
    ensures var r := Move(s, step);
            Pending(r) && !EofComing(r) && !r.reader.Relinked? && r.conv.state.Unconnected? && r.dst == s.dst
  {
    hide Ident, Stamps;
  }

  function ConnectAgain(dst: Addr): seq<Step> { [Command(Some(dst)), WriteHangup(Reported), Unlock] }

  function Again(dst: Addr, n: nat): seq<Step> {
    if n == 0 then [] else ConnectAgain(dst) + Again(dst, n - 1)
  }

  lemma OneMoreConnect(s: State, dst: Addr)
    requires Inv(s) && s.typist.AtPrompt? && !ReaderHolds(s)
    ensures var r := Move(Move(Move(s, Command(Some(dst))), WriteHangup(Reported)), Unlock);
            && Pending(r) && !ReaderHolds(r) && r.dst == Some(dst)
            && r.stale == (if s.stale > 0 && !s.conv.wakes then s.stale - 1 else 0)
            && (EofComing(r) <==> s.conv.wakes || s.stale == 0 || EofComing(s))
  {
    hide Stamps;
  }

  /** Repeating the command gets there: each /connect uses up an abandoned read at least, and one more than
      their number puts an EOF on its way to the reader. */
  lemma {:induction false} RepeatedConnectsReach(s: State, dst: Addr, n: nat)
    requires Inv(s) && s.typist.AtPrompt? && !ReaderHolds(s) && n > s.stale
    ensures var r := Exec(s, Again(dst, n)); Pending(r) && EofComing(r) && r.dst == Some(dst)
    decreases n
  {
    hide Inv, Pending, EofComing, Move, ReaderHolds;
    var r := Move(Move(Move(s, Command(Some(dst))), WriteHangup(Reported)), Unlock);
    OneMoreConnect(s, dst);
    ExecThree(s, Command(Some(dst)), WriteHangup(Reported), Unlock, Again(dst, n - 1));
    PendingIsInv(r);
    if n == 1 {
      assert Exec(r, Again(dst, 0)) == r;
    } else {
      RepeatedConnectsReach(r, dst, n - 1);
    }
  }

  lemma PendingIsInv(s: State)
    requires Pending(s)
    ensures Inv(s) && s.typist.AtPrompt? && s.switching
  {
  }

  lemma ExecThree(s: State, a: Step, b: Step, c: Step, rest: seq<Step>)
    ensures Exec(s, [a, b, c] + rest) == Exec(Move(Move(Move(s, a), b), c), rest)
  {
    hide Move;
    assert ([a, b, c] + rest)[1..] == [b, c] + rest;
    assert ([b, c] + rest)[1..] == [c] + rest;
    assert ([c] + rest)[1..] == rest;
    assert Exec(s, [a, b, c] + rest) == Exec(Move(s, a), [b, c] + rest);
    assert Exec(Move(s, a), [b, c] + rest) == Exec(Move(Move(s, a), b), [c] + rest);
  }

  // ---- two runs ----

  function StartAt(a: Addr, wakes: bool): State {
    State(Bind(Alloc(Idle(wakes)), a), 0, Top, AtPrompt, false, Some(a), UNTOLD)
  }

  /** The reader's read parked behind one the relay gave up on. */
  function ParkedBehind(a: Addr, wakes: bool): State {
    var s := StartAt(a, wakes);
    s.(conv := s.conv.(parked := true), stale := 1, reader := Reading)
  }

  lemma ReadGivenUp(a: Addr, wakes: bool)
    ensures Move(Move(Move(StartAt(a, wakes), StartRead), ReadExpires), StartRead) == ParkedBehind(a, wakes)
  {
  }

  lemma HangUpBehind(a: Addr, b: Addr, wakes: bool)
    ensures var r := Move(Move(Move(ParkedBehind(a, wakes), Command(Some(b))), WriteHangup(Reported)), Unlock);
            && r.switching && r.typist.AtPrompt? && r.dst == Some(b) && r.reader.Reading?
            && r.tale.hung == Some(Reported) && r.conv.state.Unconnected?
            && (EofComing(r) <==> wakes) && r.conv.parked == !wakes
  {
    hide CtlExec, Stamps, Elements;
  }

  /** One read given up on is enough, unless the purge wakes it: the hang-up's EOF goes to it, every write is
      reported as it went, and the switch is stuck with the reader parked behind. */
  lemma AbandonedReadSwallowsEof(a: Addr, b: Addr, wakes: bool)
    ensures var r := Exec(StartAt(a, wakes), [StartRead, ReadExpires, StartRead] + ConnectAgain(b));
            && Start(StartAt(a, wakes)) && Pending(r) && !r.reader.Relinked? && r.tale.hung == Some(Reported)
            && r.conv.state.Unconnected? && (EofComing(r) <==> wakes) && r.conv.parked == !wakes
  {
    hide Move, Inv, EofComing;
    var s := StartAt(a, wakes);
    var steps := [StartRead, ReadExpires, StartRead] + ConnectAgain(b);
    StartIsGood(s);
    ExecKeeps(s, steps);
    ReadGivenUp(a, wakes);
    HangUpBehind(a, b, wakes);
    ExecThree(s, StartRead, ReadExpires, StartRead, ConnectAgain(b));
    ExecThree(ParkedBehind(a, wakes), Command(Some(b)), WriteHangup(Reported), Unlock, []);
    assert ConnectAgain(b) + [] == ConnectAgain(b);
  }

  /** The flag is down, nobody is connecting and an EOF waits. */
  predicate Stray(s: State) {
    && s.typist.AtPrompt? && !s.switching && s.stale == 0
    && s.conv.state.Unconnected? && !s.conv.parked && s.conv.hand.None?
    && ((s.reader.Top? && s.conv.rxq == [EOF]) || (s.reader.Deciding? && s.conv.rxq == []))
  }

  lemma HangUpUnheard(a: Addr, b: Addr, wakes: bool)
    ensures var r := Move(Move(Move(StartAt(a, wakes), Command(Some(b))), WriteHangup(ReplyLost)), Unlock);
            Stray(r) && r.reader.Top?
  {
    hide CtlExec, Stamps, Elements;
  }

  lemma StrayIsRead(s: State)
    requires Stray(s) && s.reader.Top?
    ensures var r := Move(Move(Move(s, StartRead), EndRead), TakeLock); Stray(r) && r.reader.Deciding?
  {
    hide CtlExec, Stamps, Elements;
  }

  lemma StrayIsIgnored(s: State)
    requires Stray(s) && s.reader.Deciding?
    ensures var r := Move(Move(Move(s, WriteConnect(Reported)), StartRead), EndRead);
            && r.typist.AtPrompt? && !r.switching && r.stale == 0
            && r.conv.state.Unconnected? && r.conv.rxq == [] && r.conv.parked
  {
    hide CtlExec, Stamps, Elements;
  }

  /** A hang-up that took effect but was reported as failed: the flag is taken back, the EOF is ignored as a
      stray, and nobody connects. */
  lemma LostHangupReplyLeavesUnbound(a: Addr, b: Addr, wakes: bool)
    ensures var r := Exec(StartAt(a, wakes), [Command(Some(b)), WriteHangup(ReplyLost), Unlock]
                                             + [StartRead, EndRead, TakeLock]
                                             + [WriteConnect(Reported), StartRead, EndRead]);
            && r.typist.AtPrompt? && !r.switching && r.stale == 0
            && r.conv.state.Unconnected? && r.conv.rxq == [] && r.conv.parked
  {
    hide Move, Stray;
    var s := StartAt(a, wakes);
    var last := [WriteConnect(Reported), StartRead, EndRead];
    var mid := [StartRead, EndRead, TakeLock];
    var first := [Command(Some(b)), WriteHangup(ReplyLost), Unlock];
    assert first + mid + last == first + (mid + last) && last + [] == last;
    var s3 := Move(Move(Move(s, Command(Some(b))), WriteHangup(ReplyLost)), Unlock);
    HangUpUnheard(a, b, wakes);
    ExecThree(s, Command(Some(b)), WriteHangup(ReplyLost), Unlock, mid + last);
    var s6 := Move(Move(Move(s3, StartRead), EndRead), TakeLock);
    StrayIsRead(s3);
    ExecThree(s3, StartRead, EndRead, TakeLock, last);
    StrayIsIgnored(s6);
    ExecThree(s6, WriteConnect(Reported), StartRead, EndRead, []);
  }

  // ---- the two processes, one method per step between preemption points ----

  lemma {:induction false} ExecSnoc(s: State, steps: seq<Step>, step: Step)
    ensures Exec(s, steps + [step]) == Move(Exec(s, steps), step)
    decreases |steps|
  {
    hide Move;
    if steps == [] {
      assert ([] + [step])[1..] == [];
    } else {
      assert (steps + [step])[1..] == steps[1..] + [step];
      ExecSnoc(Move(s, steps[0]), steps[1..], step);
    }
  }

  class Chat {
    var conv: Conv               // the server's side
    var stale: nat
    var reader: ReaderPc
    var typist: TypistPc
    var switching: bool
    var dst: Option<Addr>
    ghost var tale: Tale
    ghost const first: State
    ghost var steps: seq<Step>

    ghost function View(): State
      reads this
    {
      State(conv, stale, reader, typist, switching, dst, tale)
    }

    ghost predicate Valid()
      reads this
    {
      Start(first) && View() == Exec(first, steps)
    }

    constructor (addr: Addr, wakes: bool)
      ensures Valid() && steps == [] && conv.wakes == wakes
    {
      conv := Bind(Alloc(Idle(wakes)), addr);
      stale, reader, typist, switching, dst := 0, Top, AtPrompt, false, Some(addr);
      tale, steps, first := UNTOLD, [], StartAt(addr, wakes);
    }

    ghost method Record(step: Step, before: State)
      requires Start(first) && before == Exec(first, steps)
      requires Enabled(before, step) && View() == Next(before, step)
      modifies this`steps
      ensures Valid() && steps == old(steps) + [step]
    {
      hide Start, Next, Enabled;
      ExecSnoc(first, steps, step);
      steps := steps + [step];
    }

    /** docmd: "/connect", up to the ctl write. */
    method TakeCommand(newDst: Option<Addr>)
      requires Valid() && typist.AtPrompt? && !ReaderHolds(View())
      modifies this
      ensures Valid() && steps == old(steps) + [Command(newDst)]
    {
      ghost var before := View();
      hide Exec, Start;
      typist := HangingUp;
      dst := newDst;
      switching := true;
      tale := UNTOLD;
      Record(Command(newDst), before);
    }

    /** Its ctl write of "hangup". */
    method SendHangup(fate: Fate)
      requires Valid() && typist.HangingUp?
      modifies this
      ensures Valid() && steps == old(steps) + [WriteHangup(fate)]
    {
      ghost var before := View();
      hide Exec, Start;
      tale := Tale(Some(fate), BoundTo(conv, dst), Swallows(before), None);
      if fate != RequestLost {
        conv := conv.(state := Unconnected, peer := ZERO);
        conv := Purge(conv);
        if conv.wakes {
          stale := 0;
        }
        if stale > 0 {
          stale := stale - 1;
        } else {
          conv := Put(conv, EOF).0;
        }
      }
      typist := HungUp(fate == Reported);
      Record(WriteHangup(fate), before);
    }

    /** Its end: the flag is taken back when the write failed. */
    method EndCommand() returns (failed: bool)
      requires Valid() && typist.HungUp?
      modifies this
      ensures Valid() && steps == old(steps) + [Unlock] && failed == !old(typist).ok
    {
      ghost var before := View();
      hide Exec, Start;
      failed := !typist.ok;
      if failed {
        switching := false;
      }
      typist := AtPrompt;
      Record(Unlock, before);
    }

    /** reader: its next fsread reaches the server. */
    method BeginRead()
      requires Valid() && reader.Top?
      modifies this
      ensures Valid() && steps == old(steps) + [StartRead]
    {
      ghost var before := View();
      hide Exec, Start, Stamps;
      conv := Get(conv);
      reader := Reading;
      Record(StartRead, before);
    }

    /** The server answers: 0 bytes is EOF, anything else is shown. */
    method EndOfRead() returns (eof: bool)
      requires Valid() && reader.Reading? && conv.hand.Some?
      modifies this
      ensures Valid() && steps == old(steps) + [EndRead]
      ensures eof == (old(conv).hand.value.data == []) == reader.AtEof?
    {
      ghost var before := View();
      hide Exec, Start;
      eof := |conv.hand.value.data| == 0;
      conv := conv.(hand := None);
      reader := if eof then AtEof else Top;
      Record(EndRead, before);
    }

    /** A long quiet read comes back as an error and is silently repeated; the server still has it. */
    method ReadExpired()
      requires Valid() && reader.Reading? && conv.parked
      modifies this
      ensures Valid() && steps == old(steps) + [ReadExpires]
    {
      ghost var before := View();
      hide Exec, Start;
      conv := conv.(parked := false);
      stale := stale + 1;
      reader := Top;
      Record(ReadExpires, before);
    }

    method LockAtEof()
      requires Valid() && reader.AtEof? && !TypistHolds(View())
      modifies this
      ensures Valid() && steps == old(steps) + [TakeLock]
    {
      ghost var before := View();
      hide Exec, Start;
      reader := Deciding;
      Record(TakeLock, before);
    }

    /** Under the lock: a stray EOF is ignored; a pending switch is connected, which the server refuses only
        when the address does not parse. */
    method Reconnect(fate: Fate) returns (w: bool)
      requires Valid() && reader.Deciding?
      modifies this
      ensures Valid() && steps == old(steps) + [WriteConnect(fate)]
      ensures old(switching) && fate.Reported? ==> w == dst.Some?
    {
      PendingSwitchHasEofComing(first, steps);
      ghost var before := View();
      hide Exec, Start;
      w := false;
      if !switching {
        reader := Top;
      } else {
        var (c, ok) := CtlExec(conv, Connect(dst));
        if fate != RequestLost {
          conv := c;
        }
        w := ok && fate == Reported;
        tale := tale.(linked := Some(fate));
        reader := Relinked;
      }
      Record(WriteConnect(fate), before);
    }

    method UnlockAfterConnect()
      requires Valid() && reader.Relinked?
      modifies this
      ensures Valid() && steps == old(steps) + [ReleaseLock] && !switching
    {
      ghost var before := View();
      hide Exec, Start;
      switching := false;
      reader := Top;
      Record(ReleaseLock, before);
    }

    /** The mesh delivers to the conversation in between. */
    method Deliver(a: Arrival)
      requires Valid()
      modifies this
      ensures Valid() && steps == old(steps) + [Datagram(a)]
    {
      ghost var before := View();
      hide Exec, Start, Receive;
      if stale > 0 && Takes(conv, a) {
        stale := stale - 1;
      } else {
        conv := Receive(conv, a, |a.payload|, 0);
      }
      Record(Datagram(a), before);
    }
  }
}
