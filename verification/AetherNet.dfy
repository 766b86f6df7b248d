/** The conversation service as the code runs it: slots updated in place, the receive fan-out loop, and
    the directory list kept in step with slot use. Every method extends the event log by what it did;
    Valid() ties the state in memory to the run of that log. */
module AetherNet {
  import opened Wire
  import opened Conversation
  import opened ConversationRuns
  import opened Namespace

  datatype Walked = NoNode | CtlOf(slot: nat) | Node(name: string)

  function InUseCount(convs: seq<Conv>): nat {
    if convs == [] then 0
    else InUseCount(convs[..|convs| - 1]) + if convs[|convs| - 1].inUse then 1 else 0
  }

  lemma {:induction false} InUseCountUpdate(convs: seq<Conv>, i: nat, c: Conv)
    requires i < |convs|
    ensures InUseCount(convs[i := c])
         == InUseCount(convs) + (if c.inUse then 1 else 0) - if convs[i].inUse then 1 else 0
  {
    var n := |convs| - 1;
    if i < n {
      InUseCountUpdate(convs[..n], i, c);
      assert convs[i := c][..n] == convs[..n][i := c];
    } else {
      assert convs[i := c][..n] == convs[..n];
    }
  }

  lemma {:induction false} SameUseSameCount(convs: seq<Conv>, convs': seq<Conv>)
    requires |convs'| == |convs| && forall j | 0 <= j < |convs| :: convs'[j].inUse == convs[j].inUse
    ensures InUseCount(convs') == InUseCount(convs)
  {
    if convs != [] {
      SameUseSameCount(convs[..|convs| - 1], convs'[..|convs| - 1]);
    }
  }

  // ---- the ctl file's text ----

  const CTL_MAX := 63
  const EINVAL := -22

  predicate Blank(c: char) { c == '\n' || c == '\r' || c == ' ' }

  function Clipped(s: string): string { if |s| > CTL_MAX then s[..CTL_MAX] else s }

  function Stripped(s: string): string {
    if s != "" && Blank(s[|s| - 1]) then Stripped(s[..|s| - 1]) else s
  }

  /** As far as C's string functions read. */
  function CString(s: string): string {
    if s == "" || s[0] == '\0' then "" else [s[0]] + CString(s[1..])
  }

  function CommandOf(s: string, parse: string -> Option<Addr>): Command {
    if "connect " <= s then Connect(parse(s[8..]))
    else if s == "announce" then Announce
    else if s == "hangup" then Hangup
    else Unknown
  }

  function ParseCtl(buf: string, parse: string -> Option<Addr>): Command {
    CommandOf(CString(Stripped(Clipped(buf))), parse)
  }

  /** The text a ctl write comes to: at most 63 characters, without the blanks behind, up to a NUL. */
  lemma CtlTextOf(buf: string, parse: string -> Option<Addr>)
    ensures var whole := buf[..if |buf| > 63 then 63 else |buf|];
            var s := Stripped(Clipped(buf));
            && s <= whole && (s != "" ==> s[|s| - 1] !in "\n\r ")
            && (forall i | |s| <= i < |whole| :: whole[i] in "\n\r ")
            && ParseCtl(buf, parse) == CommandOf(CString(s), parse)
            && CString(s) <= s && '\0' !in CString(s) && (CString(s) == s || s[|CString(s)|] == '\0')
  {
    StrippedIs(Clipped(buf));
    CStringIs(Stripped(Clipped(buf)));
    assert Clipped(buf) == buf[..if |buf| > 63 then 63 else |buf|];
  }

  lemma {:induction false} StrippedIs(s: string)
    ensures Stripped(s) <= s && (Stripped(s) != "" ==> Stripped(s)[|Stripped(s)| - 1] !in "\n\r ")
    ensures forall i | |Stripped(s)| <= i < |s| :: s[i] in "\n\r "
  {
    if s != "" {
      StrippedIs(s[..|s| - 1]);
    }
  }

  lemma {:induction false} CStringIs(s: string)
    ensures var c := CString(s); c <= s && '\0' !in c && (c == s || s[|c|] == '\0')
  {
    if s != "" && s[0] != '\0' {
      CStringIs(s[1..]);
    }
  }

  /** What a ctl text does to a slot, and whether it is accepted. */
  lemma CtlTextMeans(c: Conv, text: string, parse: string -> Option<Addr>)
    ensures var (c', ok) := CtlExec(c, CommandOf(text, parse));
            var free := c.state == Unconnected;
            if text == "announce" then ok == free && c' == if free then c.(state := Announced) else c
            else if text == "hangup" then ok && c'.state == Unconnected && c'.peer == ZERO && EofFirst(c')
            else if "connect " <= text && free && parse(text[8..]).Some? then
              var to := parse(text[8..]).value;
              ok && c' == if to == [0xff, 0xff, 0xff, 0xff, 0xff, 0xff] then c.(state := Broadcast)
                          else c.(state := Connected, peer := to)
            else !ok && c' == c
  {
    assert "announce"[0] != "connect "[0];
    assert !("connect " <= "hangup");
  }

  /** The body of the fan-out loop: match one slot, queue the datagram or report it dropped. */
  method Offer(c: Conv, a: Arrival, maxMsg: nat, now: nat) returns (c': Conv, dropped: bool)
    ensures c' == Receive(c, a, maxMsg, now) && c'.inUse == c.inUse
    ensures dropped == Drops(c, a)
  {
    c', dropped := c, false;
    if !c.inUse {
      return;
    }
    var take := false;
    if a.broadcast {
      take := c.state == Broadcast;
    } else if c.state == Announced {
      take := true;
    } else if c.state == Connected {
      take := (c.peer in a.routes.addrOf && a.routes.addrOf[c.peer] == a.src) || c.peer == Ident(a) || c.peer == a.src;
    }
    if !take {
      return;
    }
    var len := if |a.payload| > maxMsg then maxMsg else |a.payload|;
    var d := Dgram(Ident(a), a.payload[..len], Some(now));
    assert a.payload[..|a.payload|] == a.payload;
    var l := c.ledger.(matched := c.ledger.matched + {now});
    if c.parked {
      c' := c.(parked := false, hand := Some(d), ledger := l.(got := l.got + [now]));
    } else if |c.rxq| < RXQ_DEPTH {
      c' := c.(rxq := c.rxq + [d], ledger := l);
    } else {
      dropped := true;
      c' := c.(ledger := l.(dropped := l.dropped + {now}));
    }
  }

  class Net {
    const maxMsg: nat
    const wakes: bool            // of k_msgq_purge, see Conversation.Conv
    const convs: array<Conv>
    const ns: Root
    var rx: nat
    var rxBytes: nat
    var rxDrop: nat
    var now: nat
    ghost var log: seq<Event>

    ghost function View(): Service
      reads this, convs
    {
      Service(maxMsg, convs[..], now, rxDrop)
    }

    /** The root lists a conversation's directory exactly while the slot is in use. */
    ghost predicate ListsInUse()
      reads convs, ns
      requires convs.Length == MAX_CONNS && ns.Fixed()
    {
      && (forall i | 0 <= i < MAX_CONNS :: (ns.dirs[i] in ns.listed) == convs[i].inUse)
      && DirCount(ns.listed) == InUseCount(convs[..])
    }

    ghost predicate Valid()
      reads this, convs, ns, ns.Nodes()
    {
      && convs.Length == MAX_CONNS
      && (forall n | n in ns.Nodes() :: n as object != convs && n as object != this)
      && ns.Valid() && ListsInUse()
      && rx < WRAP32 && rxBytes < WRAP32
      && View() == Run(maxMsg, wakes, log)
    }

    constructor (maxMsg: nat, wakes: bool)
      ensures Valid() && log == [] && this.maxMsg == maxMsg && this.wakes == wakes
      ensures fresh(convs) && fresh(ns) && fresh(ns.Nodes())
    {
      this.maxMsg, this.wakes := maxMsg, wakes;
      convs := new Conv[MAX_CONNS](_ => Idle(wakes));
      ns := new Root();
      rx, rxBytes, rxDrop, now := 0, 0, 0, 0;
      log := [];
      new;
      assert convs[..] == Boot(maxMsg, wakes).convs;
      NoneInUse(convs[..]);
    }

    /** Records the event whose effect on the slots the caller has just carried out. */
    ghost method Log(e: Event)
      requires convs.Length == MAX_CONNS && now == |log| + 1
      requires View() == Step(Run(maxMsg, wakes, log), e)
      modifies this`log
      ensures log == old(log) + [e] && View() == Run(maxMsg, wakes, log)
    {
      RunOne(maxMsg, wakes, log, e);
      log := log + [e];
    }

    /** aether_recv_cb: offer the datagram to every slot in turn. */
    method RecvCb(a: Arrival)
      requires Valid()
      modifies convs, this`rx, this`rxBytes, this`rxDrop, this`now, this`log
      ensures Valid() && log == old(log) + [Arrive(a)]
      ensures rx == (old(rx) + 1) % WRAP32
      ensures rxBytes == (old(rxBytes) + if |a.payload| > maxMsg then maxMsg else |a.payload|) % WRAP32
    {
      hide Receive, DropCount, Run, Root.Valid, InUseCount, DirCount, Step, FirstFree;
      ghost var before := convs[..];
      var len := if |a.payload| > maxMsg then maxMsg else |a.payload|;
      rx := (rx + 1) % WRAP32;
      rxBytes := (rxBytes + len) % WRAP32;
      FanOut(a);
      SameUseSameCount(before, convs[..]);
      now := now + 1;
      StepOfArrive(Run(maxMsg, wakes, log), a, View());
      Log(Arrive(a));
    }

    method FanOut(a: Arrival)
      requires convs.Length == MAX_CONNS && rxDrop < WRAP32
      modifies convs, this`rxDrop
      ensures forall j | 0 <= j < MAX_CONNS :: convs[j] == Receive(old(convs[j]), a, maxMsg, now)
                                               && convs[j].inUse == old(convs[j].inUse)
      ensures rxDrop == (old(rxDrop) + DropCount(old(convs[..]), a)) % WRAP32
    {
      hide Receive, Drops, WRAP32, DropCount;
      NoneDropped(a);
      ghost var before := convs[..];
      ghost var drops := 0;
      var i := 0;
      while i < convs.Length
        invariant 0 <= i <= convs.Length
        invariant forall j | 0 <= j < i :: convs[j] == Receive(before[j], a, maxMsg, now)
                                           && convs[j].inUse == before[j].inUse
        invariant forall j | i <= j < convs.Length :: convs[j] == before[j]
        invariant drops == DropCount(before[..i], a) && rxDrop == (old(rxDrop) + drops) % WRAP32
      {
        OneMoreOffered(before, i, a);
        var c, dropped := Offer(convs[i], a, maxMsg, now);
        if dropped {
          AddWrapped(old(rxDrop) + drops, 1);
          rxDrop := (rxDrop + 1) % WRAP32;
          drops := drops + 1;
        }
        convs[i] := c;
        i := i + 1;
      }
      assert before[..convs.Length] == before;
    }

    /** Replaces one slot's record, by an event that touches no other slot and not its use. */
    method Update(slot: nat, c: Conv, ghost e: Event)
      requires Valid() && slot < MAX_CONNS && c.inUse == convs[slot].inUse
      requires !e.Arrive? && forall j | 0 <= j < MAX_CONNS ::
                 ConvStep(convs[j], j, e, FirstFree(convs[..]), maxMsg, now) == if j == slot then c else convs[j]
      modifies convs, this`now, this`log
      ensures Valid() && log == old(log) + [e]
    {
      hide ConvStep, Run, Root.Valid, InUseCount, DirCount, Step, FirstFree;
      InUseCountUpdate(convs[..], slot, c);
      ghost var before := convs[..];
      convs[slot] := c;
      now := now + 1;
      assert convs[..] == before[slot := c];
      StepOfUpdate(Run(maxMsg, wakes, log), slot, c, e, View());
      Log(e);
    }

    /** A ctl write: the grammar of ctl_exec, in place. */
    method CtlWrite(slot: nat, cmd: Command) returns (ok: bool)
      requires Valid() && slot < MAX_CONNS
      modifies convs, this`now, this`log
      ensures Valid() && log == old(log) + [Ctl(slot, cmd)]
      ensures ok == CtlExec(old(convs[slot]), cmd).1
    {
      hide Root.Valid, ListsInUse, Run;
      var c := convs[slot];
      ok := false;
      match cmd {
        case Connect(addr) =>
          if c.state == Unconnected && addr.Some? {
            ok := true;
            if addr.value == BCAST {
              c := c.(state := Broadcast);
            } else {
              c := c.(peer := addr.value);
              c := c.(state := Connected);
            }
          }
        case Announce =>
          if c.state == Unconnected {
            c, ok := c.(state := Announced), true;
          }
        case Hangup =>
          c := c.(state := Unconnected);
          c := c.(peer := ZERO);
          c := Purge(c);
          c := Put(c, EOF).0;
          ok := true;
        case Unknown =>
      }
      Update(slot, c, Ctl(slot, cmd));
    }

    /** anet_write on a ctl file: at most 63 characters, trailing blanks stripped, then ctl_exec. `parse` stands
        for parse_addr. The whole count is accepted, or EINVAL. */
    method WriteCtl(slot: nat, buf: string, parse: string -> Option<Addr>) returns (ret: int)
      requires Valid() && slot < MAX_CONNS
      modifies convs, this`now, this`log
      ensures Valid() && log == old(log) + [Ctl(slot, ParseCtl(buf, parse))]
      ensures ret == if CtlExec(old(convs[slot]), ParseCtl(buf, parse)).1 then |buf| else -22
    {
      hide Root.Valid, ListsInUse, Run, CtlExec;
      var k := if |buf| > CTL_MAX then CTL_MAX else |buf|;
      var cmd := buf[..k];
      assert Clipped(buf) == cmd;
      while k > 0 && Blank(buf[k - 1])
        invariant k <= |buf| && cmd == buf[..k] && Stripped(cmd) == Stripped(Clipped(buf))
      {
        k := k - 1;
        assert cmd[..|cmd| - 1] == buf[..k];
        cmd := buf[..k];
      }
      var ok := CtlWrite(slot, CommandOf(CString(cmd), parse));
      ret := if ok then |buf| else EINVAL;
    }

    /** k_msgq_get on a data file: takes the head, or parks. */
    method BeginDataRead(slot: nat)
      requires Valid() && slot < MAX_CONNS
      modifies convs, this`now, this`log
      ensures Valid() && log == old(log) + [BeginRead(slot)]
    {
      hide Root.Valid, ListsInUse, Run;
      var c := convs[slot];
      if !c.parked && c.hand.None? {
        if c.rxq == [] {
          c := c.(parked := true);
        } else {
          var d := c.rxq[0];
          c := c.(hand := Some(d), rxq := c.rxq[1..]);
          c := c.(ledger := c.ledger.(got := c.ledger.got + Stamps([d])));
        }
      }
      Update(slot, c, BeginRead(slot));
    }

    /** The rest of the data read: frame what was dequeued by the state as it is now. */
    method FinishDataRead(slot: nat, count: nat) returns (r: ReadResult)
      requires Valid() && slot < MAX_CONNS && convs[slot].hand.Some?
      modifies convs, this`now, this`log
      ensures Valid() && log == old(log) + [FinishRead(slot)]
      ensures r == Frame(old(convs[slot].state), old(convs[slot].hand.value), count)
    {
      hide Root.Valid, ListsInUse, Run;
      var c := convs[slot];
      var d := c.hand.value;
      Update(slot, c.(hand := None), FinishRead(slot));
      if |d.data| == 0 {
        return Delivered([]);
      }
      var prefixed := c.state == Announced || c.state == Broadcast;
      var need := |d.data| + if prefixed then 6 else 0;
      if count < need {
        return TooSmall;
      }
      var buf: Bytes := [];
      if prefixed {
        buf := buf + d.src;
      }
      buf := buf + d.data;
      return Delivered(buf);
    }

    /** conv_alloc: the first free slot is cleared, its directory linked in; MAX_CONNS when all are in use. */
    method ConvAlloc() returns (i: nat)
      requires Valid()
      modifies convs, ns, ns.Nodes()
      ensures i == FirstFree(old(convs[..])) && ns.Valid() && ListsInUse()
      ensures convs[..] == if i < MAX_CONNS then old(convs[..])[i := Alloc(old(convs[i]))] else old(convs[..])
      ensures ns.listed == if i < MAX_CONNS then [ns.dirs[i]] + old(ns.listed) else old(ns.listed)
    {
      hide Run, Root.Valid;
      ghost var before := convs[..];
      i := 0;
      while i < convs.Length
        invariant 0 <= i <= convs.Length && convs[..] == before && ns.Valid() && ListsInUse()
        invariant ns.listed == old(ns.listed)
        invariant forall j | 0 <= j < i :: before[j].inUse
        invariant i < convs.Length ==> FirstFree(before) >= i
      {
        if !convs[i].inUse {
          FirstFreeIs(before, i);
          InUseCountUpdate(before, i, Alloc(before[i]));
          convs[i] := convs[i].(peer := ZERO, inUse := true, state := Unconnected, rxq := [], parked := false);
          ns.DirsDistinct();
          ns.LinkDir(i);
          assert convs[..] == before[i := Alloc(before[i])];
          return;
        }
        i := i + 1;
      }
    }

    /** Walking "clone": a fresh conversation's ctl node, or nothing when the pool is full. */
    method WalkClone() returns (w: Walked)
      requires Valid()
      modifies convs, ns, ns.Nodes(), this`now, this`log
      ensures Valid() && log == old(log) + [Clone]
      ensures w == var i := FirstFree(old(convs[..])); if i < MAX_CONNS then CtlOf(i) else NoNode
    {
      hide Run, Alloc, ListsInUse, Root.Valid, InUseCount, DirCount, Step, FirstFree;
      ghost var s := View();
      var i := ConvAlloc();
      now := now + 1;
      StepOfClaim(s, Clone, View());
      Log(Clone);
      w := if i < MAX_CONNS then CtlOf(i) else NoNode;
    }

    method BindPeer(i: nat, peer: Addr)
      requires convs.Length == MAX_CONNS && ns.Valid() && ListsInUse() && i < MAX_CONNS
      requires forall n | n in ns.Nodes() :: n as object != convs
      modifies convs
      ensures ns.Valid() && ListsInUse()
      ensures convs[..] == old(convs[..])[i := old(convs[i]).(peer := peer, state := Connected)]
    {
      hide Root.Valid;
      ghost var before := convs[..];
      InUseCountUpdate(before, i, before[i].(peer := peer, state := Connected));
      convs[i] := convs[i].(peer := peer);
      convs[i] := convs[i].(state := Connected);
      assert convs[..] == before[i := before[i].(peer := peer, state := Connected)];
    }

    /** The internal clients' start: allocate, then bind without the ctl grammar. */
    method Dial(peer: Addr) returns (i: nat)
      requires Valid()
      modifies convs, ns, ns.Nodes(), this`now, this`log
      ensures Valid() && log == old(log) + [Event.Dial(peer)]
      ensures i == FirstFree(old(convs[..]))
    {
      hide Run, Alloc, ListsInUse, Root.Valid, InUseCount, DirCount, Step, FirstFree;
      ghost var s := View();
      i := ConvAlloc();
      now := now + 1;
      if i < MAX_CONNS {
        ghost var claimed := Alloc(s.convs[i]);
        assert convs[i] == convs[..][i] == claimed;
        BindPeer(i, peer);
        assert convs[..] == s.convs[i := claimed.(peer := peer, state := Connected)];
      }
      StepOfClaim(s, Event.Dial(peer), View());
      Log(Event.Dial(peer));
    }

    /** conv_free: unlink the directory, purge, leave the sentinel last. */
    method ConvFree(slot: nat)
      requires convs.Length == MAX_CONNS && ns.Valid() && ListsInUse() && slot < MAX_CONNS
      requires forall n | n in ns.Nodes() :: n as object != convs
      modifies convs, ns, ns.Nodes()
      ensures ns.Valid() && ListsInUse()
      ensures convs[..] == old(convs[..])[slot := Free(old(convs[slot]))]
    {
      hide Root.Valid;
      var c := convs[slot];
      if !c.inUse {
        return;
      }
      ghost var before := convs[..];
      ns.DirsDistinct();
      ns.UnlinkDir(slot);
      c := Purge(c);
      c := Put(c, EOF).0;
      c := c.(inUse := false);
      c := c.(state := Unconnected);
      InUseCountUpdate(before, slot, c);
      convs[slot] := c;
      assert convs[..] == before[slot := c];
    }

    /** Clunking the ctl fid: conv_free under the lock. */
    method ClunkCtlFid(slot: nat)
      requires Valid() && slot < MAX_CONNS
      modifies convs, ns, ns.Nodes(), this`now, this`log
      ensures Valid() && log == old(log) + [ClunkCtl(slot)]
    {
      hide Run, ListsInUse, Root.Valid;
      ghost var s := View();
      ConvFree(slot);
      now := now + 1;
      StepOfFree(s, slot, View());
      Log(ClunkCtl(slot));
    }

    /** anet_walk from the root. */
    method WalkRoot(name: string) returns (w: Walked)
      requires Valid()
      modifies convs, ns, ns.Nodes(), this`now, this`log
      ensures Valid()
      ensures name == "clone" ==> log == old(log) + [Clone]
      ensures name != "clone" ==> log == old(log) && convs[..] == old(convs[..])
                                  && (w.Node? <==> exists n :: n in ns.listed && n.name == name)
      ensures forall i | 0 <= i < MAX_CONNS && name == SLOT_NAMES[i] ::
                w == if convs[i].inUse then Node(name) else NoNode
    {
      hide Run, InUseCount, DirCount, FirstFree, ListsInUse, Root.Valid;
      if name == "clone" {
        w := WalkClone();
      } else {
        w := WalkListed(name);
      }
    }

    /** Any name but "clone": a child of that name is found, or none is. */
    method WalkListed(name: string) returns (w: Walked)
      requires Valid()
      ensures w == NoNode || w == Node(name)
      ensures w.Node? <==> exists n :: n in ns.listed && n.name == name
      ensures forall i | 0 <= i < MAX_CONNS && name == SLOT_NAMES[i] ::
                w == if convs[i].inUse then Node(name) else NoNode
    {
      hide Run, InUseCount, DirCount, Root.Valid;
      var n := ns.Lookup(name);
      w := if n == null then NoNode else Node(n.name);
      forall i | 0 <= i < MAX_CONNS && name == SLOT_NAMES[i]
        ensures (n != null) == convs[i].inUse
      {
        SlotNameListed(ns, i);
      }
    }

    /** The count in the top-level status file: as many as the root lists numeric directories. */
    method ActiveCount() returns (active: nat)
      requires Valid()
      ensures active == DirCount(ns.listed)
    {
      active := 0;
      var i := 0;
      while i < convs.Length
        invariant 0 <= i <= convs.Length && active == InUseCount(convs[..i])
      {
        assert convs[..i + 1][..i] == convs[..i];
        active := active + if convs[i].inUse then 1 else 0;
        i := i + 1;
      }
      assert convs[..i] == convs[..];
    }
  }

  lemma NoneDropped(a: Arrival)
    ensures DropCount([], a) == 0
  {
  }

  lemma OneMoreOffered(convs: seq<Conv>, i: nat, a: Arrival)
    requires i < |convs|
    ensures DropCount(convs[..i + 1], a) == DropCount(convs[..i], a) + if Drops(convs[i], a) then 1 else 0
  {
    hide Drops;
    assert convs[..i + 1][..i] == convs[..i];
  }

  lemma StepOfClaim(s: Service, e: Event, s': Service)
    requires e.Clone? || e.Dial?
    requires var i := FirstFree(s.convs);
             s' == s.(now := s.now + 1, convs := if i < |s.convs|
                        then s.convs[i := if e.Clone? then Alloc(s.convs[i])
                                          else Alloc(s.convs[i]).(peer := e.peer, state := Connected)]
                        else s.convs)
    ensures s' == Step(s, e)
  {
    hide Alloc;
    assert s'.convs == Step(s, e).convs;
  }

  lemma StepOfFree(s: Service, slot: nat, s': Service)
    requires slot < |s.convs| && s' == s.(now := s.now + 1, convs := s.convs[slot := Free(s.convs[slot])])
    ensures s' == Step(s, ClunkCtl(slot))
  {
    hide Free;
    assert s'.convs == Step(s, ClunkCtl(slot)).convs;
  }

  lemma StepOfArrive(s: Service, a: Arrival, s': Service)
    requires |s'.convs| == |s.convs| && s'.maxMsg == s.maxMsg && s'.now == s.now + 1
    requires forall j | 0 <= j < |s.convs| :: s'.convs[j] == Receive(s.convs[j], a, s.maxMsg, s.now)
    requires s'.rxDrop == (s.rxDrop + DropCount(s.convs, a)) % WRAP32
    ensures s' == Step(s, Arrive(a))
  {
    hide Receive, DropCount;
    assert s'.convs == Step(s, Arrive(a)).convs;
  }

  lemma StepOfUpdate(s: Service, slot: nat, c: Conv, e: Event, s': Service)
    requires slot < |s.convs| && !e.Arrive?
    requires forall j | 0 <= j < |s.convs| ::
               ConvStep(s.convs[j], j, e, FirstFree(s.convs), s.maxMsg, s.now) == if j == slot then c else s.convs[j]
    requires s' == s.(convs := s.convs[slot := c], now := s.now + 1)
    ensures s' == Step(s, e)
  {
    hide ConvStep;
    assert s'.convs == Step(s, e).convs;
  }

  lemma FirstFreeIs(convs: seq<Conv>, i: nat)
    requires i < |convs| && !convs[i].inUse && forall j | 0 <= j < i :: convs[j].inUse
    ensures FirstFree(convs) == i
  {
  }

  lemma {:induction false} NoneInUse(convs: seq<Conv>)
    requires forall j | 0 <= j < |convs| :: !convs[j].inUse
    ensures InUseCount(convs) == 0
  {
    if convs != [] {
      NoneInUse(convs[..|convs| - 1]);
    }
  }
}
