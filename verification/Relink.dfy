/** The relay's session with the 9151 (dect_relay/src/main.c): lazy attach, the flags its users clear when an
    operation finds the link stale, and what that does to the conversations other clients hold open on
    the 9151. */
module Relink {
  import Wire

  /** What the 9151 and the link see, in order. `Tversion` and `Tattach` carry whether the call succeeded; a
      Tversion clears the 9151's fid table even when its reply is lost. */
  datatype Event =
    | Tversion(ok: bool)
    | Tattach(ok: bool)
    | Twalk(ok: bool)
    | Topen(ok: bool)
    | Disconnect           // the host's own session dropped
    | Hold(conv: nat)      // a client opens a conversation through the link
    | Drop(conv: nat)      // and clunks it
    | Reboot               // the 9151 restarts

  type Log = seq<Event>

  function Init(log: Log): Log
    requires log != []
  {
    log[..|log| - 1]
  }

  function Last(log: Log): Event
    requires log != []
  {
    log[|log| - 1]
  }

  predicate LooseAfter(loose: bool, e: Event) {
    match e
    case Tversion(ok) => !ok && loose
    case Tattach(ok) => !ok || loose
    case Disconnect => true
    case _ => loose
  }

  /** Something has gone wrong since the last successful Tversion, or there has been none. */
  predicate Loose(log: Log) { log == [] || LooseAfter(Loose(Init(log)), Last(log)) }

  /** No Tversion was sent on a link that was not loose. */
  predicate Justified(log: Log) {
    log == [] || (Justified(Init(log)) && (Last(log).Tversion? ==> Loose(Init(log))))
  }

  /** The conversations held on the 9151. */
  function Held(log: Log): set<nat> {
    if log == [] then {} else
    match Last(log)
    case Tversion(_) => {}
    case Reboot => {}
    case Hold(c) => Held(Init(log)) + {c}
    case Drop(c) => Held(Init(log)) - {c}
    case _ => Held(Init(log))
  }

  predicate Calm(e: Event) { !(e.Tattach? && !e.ok) && !e.Disconnect? && !e.Reboot? }

  predicate CalmFrom(log: Log, k: nat) { forall i | k <= i < |log| :: Calm(log[i]) }

  predicate NoTversionFrom(log: Log, k: nat) { forall i | k <= i < |log| :: !log[i].Tversion? }

  // ---- what the discipline is worth ----

  predicate NeverVersioned(log: Log) { forall i | 0 <= i < |log| :: log[i] != Tversion(true) }

  /** A failure or a host disconnect at j, and no successful Tversion after it. */
  predicate SpoiltAt(log: Log, j: nat) {
    && j < |log| && (log[j] == Tattach(false) || log[j].Disconnect?)
    && forall i | j < i < |log| :: log[i] != Tversion(true)
  }

  /** Loose, spelled out. */
  lemma {:induction false} LooseMeans(log: Log)
    ensures Loose(log) <==> NeverVersioned(log) || exists j: nat :: SpoiltAt(log, j)
  {
    if log != [] {
      var init, last := Init(log), Last(log);
      LooseMeans(init);
      assert log == init + [last];
      if last == Tattach(false) || last.Disconnect? {
        assert SpoiltAt(log, |log| - 1);
      } else if last != Tversion(true) {
        assert NeverVersioned(log) == NeverVersioned(init);
        forall j: nat
          ensures SpoiltAt(log, j) == SpoiltAt(init, j)
        {
          assert j < |init| ==> log[j] == init[j];
        }
      } else {
        assert log[|log| - 1] == last;
      }
    }
  }

  /** Every Tversion ever sent is the first handshake or follows a failed Tattach or a host disconnect with no
      successful Tversion in between. */
  lemma {:induction false} EveryTversionHasItsReason(log: Log, k: nat)
    requires Justified(log) && k < |log| && log[k].Tversion?
    ensures NeverVersioned(log[..k]) || exists j: nat :: SpoiltAt(log[..k], j)
  {
    if k == |log| - 1 {
      LooseMeans(Init(log));
    } else {
      assert Init(log)[..k] == log[..k];
      EveryTversionHasItsReason(Init(log), k);
    }
  }

  /** From a link in good standing, with no Tattach failing, no host disconnecting and the 9151 not
      rebooting: however many operations find the link stale and re-attach it, no Tversion is sent and no
      conversation is lost except by its own holder. */
  lemma {:induction false} HeldSurvive(log: Log, k: nat, c: nat)
    requires k <= |log| && Justified(log) && !Loose(log[..k]) && c in Held(log[..k])
    requires CalmFrom(log, k) && forall i | k <= i < |log| :: log[i] != Drop(c)
    ensures !Loose(log) && c in Held(log) && NoTversionFrom(log, k)
    decreases |log|
  {
    if k == |log| {
      assert log[..k] == log;
    } else {
      assert Init(log)[..k] == log[..k];
      HeldSurvive(Init(log), k, c);
    }
  }

  /** And a conversation its holder keeps is lost exactly to a Tversion or a reboot. */
  lemma {:induction false} LostExactly(log: Log, k: nat, c: nat)
    requires k <= |log| && c in Held(log[..k])
    requires forall i | k <= i < |log| :: log[i] != Drop(c) && log[i] != Hold(c)
    ensures c in Held(log) <==> forall i | k <= i < |log| :: !log[i].Tversion? && !log[i].Reboot?
    decreases |log|
  {
    if k == |log| {
      assert log[..k] == log;
    } else {
      var init := Init(log);
      assert init[..k] == log[..k] && forall i | k <= i < |init| :: init[i] == log[i];
      LostExactly(init, k, c);
      if forall i | k <= i < |init| :: !init[i].Tversion? && !init[i].Reboot? {
        assert forall i | k <= i < |log| - 1 :: !log[i].Tversion? && !log[i].Reboot?;
      }
    }
  }

  // ---- the root fid ----

  /** A successful Tattach, and no Tversion after it: the root fid is known to the 9151 unless it has rebooted. */
  ghost predicate Rooted(log: Log) {
    exists j: nat :: RootedAt(log, j)
  }

  ghost predicate RootedAt(log: Log, j: nat) {
    j < |log| && log[j] == Tattach(true) && NoTversionFrom(log, j)
  }

  lemma RootedMore(log: Log, e: Event)
    ensures Rooted(log + [e]) <==> e == Tattach(true) || (Rooted(log) && !e.Tversion?)
  {
    var more := log + [e];
    forall j: nat | j < |log|
      ensures RootedAt(more, j) <==> RootedAt(log, j) && !e.Tversion?
    {
      assert more[|log|] == e && forall i | j <= i < |log| :: more[i] == log[i];
    }
    assert e == Tattach(true) ==> RootedAt(more, |log|);
    assert !(e == Tattach(true)) ==> !RootedAt(more, |log|);
  }

  lemma {:induction false} RootedStays(log: Log, k: nat)
    requires k <= |log| && Rooted(log[..k]) && NoTversionFrom(log, k)
    ensures Rooted(log)
  {
    var j: nat :| RootedAt(log[..k], j);
    assert forall i | j <= i < k :: log[i] == log[..k][i];
    assert RootedAt(log, j);
  }

  /** Every walk since `from` came when, at some point of the same stretch, the link had been attached with no
      Tversion since; and it is so still at the walk unless another user of the link sent one in between. */
  ghost predicate WalksFromRoot(log: Log, from: nat) {
    forall t | from <= t < |log| && log[t].Twalk? :: exists k: nat :: AttachedBy(log, from, k, t)
  }

  ghost predicate AttachedBy(log: Log, from: nat, k: nat, t: nat)
    requires t < |log|
  {
    && from <= k <= t && Rooted(log[..k]) && NoWalk(log, k, t)
    && (NoTversionFrom(log[..t], k) ==> Rooted(log[..t]))
  }

  predicate NoWalk(log: Log, k: nat, t: nat)
    requires t <= |log|
  {
    forall i | k <= i < t :: !log[i].Twalk?
  }

  lemma WalksMore(a: Log, b: Log, from: nat)
    requires a <= b && WalksFromRoot(a, from) && NoWalk(b, |a|, |b|)
    ensures WalksFromRoot(b, from)
  {
    forall t | from <= t < |b| && b[t].Twalk?
      ensures exists k: nat :: AttachedBy(b, from, k, t)
    {
      assert t < |a| && a[t] == b[t];
      var k: nat :| AttachedBy(a, from, k, t);
      assert a[..t] == b[..t] && a[..k] == b[..k];
      assert AttachedBy(b, from, k, t);
    }
  }

  /** A walk noted after an attach at k, with other users' traffic between. */
  lemma WalkNoted(log: Log, from: nat, k: nat, ok: bool)
    requires from <= k <= |log| && WalksFromRoot(log[..k], from) && Rooted(log[..k]) && NoWalk(log, k, |log|)
    ensures WalksFromRoot(log + [Twalk(ok)], from)
  {
    WalksMore(log[..k], log, from);
    var more := log + [Twalk(ok)];
    forall t | from <= t < |more| && more[t].Twalk?
      ensures exists j: nat :: AttachedBy(more, from, j, t)
    {
      if t < |log| {
        assert more[t] == log[t];
        var j: nat :| AttachedBy(log, from, j, t);
        assert more[..t] == log[..t] && more[..j] == log[..j];
        assert AttachedBy(more, from, j, t);
      } else {
        assert more[..t] == log && more[..k] == log[..k];
        if NoTversionFrom(log, k) {
          RootedStays(log, k);
        }
        assert AttachedBy(more, from, k, t);
      }
    }
  }

  lemma NoWalksYet(log: Log)
    ensures WalksFromRoot(log, |log|) && Reattached(log, |log|)
  {
  }

  function Walks(log: Log): nat {
    if log == [] then 0 else Walks(Init(log)) + if Last(log).Twalk? then 1 else 0
  }

  /** Between two walks since `from` the link was attached anew. */
  ghost predicate Reattached(log: Log, from: nat) {
    forall u, t | from <= u < t < |log| && log[u].Twalk? && log[t].Twalk? :: AttachedIn(log, u, t)
  }

  ghost predicate AttachedIn(log: Log, u: nat, t: nat)
    requires t <= |log|
  {
    exists j :: u <= j < t && log[j] == Tattach(true)
  }

  lemma AttachedInMore(a: Log, b: Log, u: nat, t: nat)
    requires a <= b && t <= |a| && AttachedIn(a, u, t)
    ensures forall u', t' | 0 <= u' <= u && t <= t' <= |b| :: AttachedIn(b, u', t')
  {
    var j :| u <= j < t && a[j] == Tattach(true);
    assert b[j] == a[j];
  }

  lemma ReattachedMore(a: Log, b: Log, from: nat)
    requires a <= b && Reattached(a, from) && NoWalk(b, |a|, |b|)
    ensures Reattached(b, from)
  {
    forall u, t | from <= u < t < |b| && b[u].Twalk? && b[t].Twalk?
      ensures AttachedIn(b, u, t)
    {
      assert t < |a| && a[t] == b[t] && a[u] == b[u];
      AttachedInMore(a, b, u, t);
    }
  }

  /** One more walk, at the end. */
  lemma ReattachedNext(a: Log, b: Log, from: nat)
    requires a < b && from <= |a| && Reattached(a, from) && NoWalk(b, |a|, |b| - 1)
    requires |a| == from || AttachedIn(b, |a|, |b| - 1)
    ensures Reattached(b, from)
  {
    forall u, t | from <= u < t < |b| && b[u].Twalk? && b[t].Twalk?
      ensures AttachedIn(b, u, t)
    {
      if t < |a| {
        assert a[t] == b[t] && a[u] == b[u];
        AttachedInMore(a, b, u, t);
      } else if u < |a| {
        AttachedInMore(b, b, |a|, |b| - 1);
      }
    }
  }

  /** What one mesh_ensure_attached that finds the link detached may send, and what the flags are then: a
      versioned link is re-attached by a Tattach alone; if that fails, or there is no version, a Tversion comes
      and, if it succeeds, a Tattach that decides. */
  predicate Handshake(versioned: bool, sent: Log, attached': bool, versioned': bool) {
    if versioned && sent == [Tattach(true)] then attached' && versioned'
    else
      && (versioned ==> sent != [] && sent[0] == Tattach(false))
      && var rest := if versioned then sent[1..] else sent;
         && attached' == (rest == [Tversion(true), Tattach(true)])
         && versioned' == (rest != [Tversion(false)])
         && rest in {[Tversion(false)], [Tversion(true), Tattach(false)], [Tversion(true), Tattach(true)]}
  }

  lemma NewSession(versioned: bool, ok: bool)
    ensures Handshake(versioned, (if versioned then [Tattach(false)] else []) + [Tversion(true), Tattach(ok)], ok, true)
  {
    var sent := (if versioned then [Tattach(false)] else []) + [Tversion(true), Tattach(ok)];
    assert (if versioned then sent[1..] else sent) == [Tversion(true), Tattach(ok)];
    assert versioned ==> sent[0] == Tattach(false);
  }

  lemma QuietParts(a: Log, b: Log, k: nat)
    requires k <= |a| && a <= b
    ensures CalmFrom(b, k) ==> CalmFrom(a, k) && CalmFrom(b, |a|)
    ensures NoTversionFrom(a, k) && NoTversionFrom(b, |a|) ==> NoTversionFrom(b, k)
  {
    assert forall i | k <= i < |a| :: a[i] == b[i];
  }

  lemma Extended(log: Log, e: Event)
    ensures Loose(log + [e]) == LooseAfter(Loose(log), e)
    ensures Justified(log + [e]) == (Justified(log) && (e.Tversion? ==> Loose(log)))
  {
    assert Init(log + [e]) == log;
  }

  // ---- the session ----

  class Session {
    var attached: bool           // mesh_attached
    var versioned: bool          // mesh_versioned
    ghost var log: Log

    ghost predicate Valid()
      reads this
    {
      (attached ==> versioned && Rooted(log)) && (!versioned ==> Loose(log)) && Justified(log)
    }

    constructor ()
      ensures Valid() && log == [] && !attached
    {
      attached, versioned, log := false, false, [];
    }

    ghost method Note(e: Event)
      modifies this`log
      ensures log == old(log) + [e] && Loose(log) == LooseAfter(Loose(old(log)), e)
      ensures Justified(log) == (Justified(old(log)) && (e.Tversion? ==> Loose(old(log))))
      ensures Rooted(log) == (e == Tattach(true) || (Rooted(old(log)) && !e.Tversion?))
      ensures Walks(log) == Walks(old(log)) + if e.Twalk? then 1 else 0
    {
      Extended(log, e);
      RootedMore(log, e);
      log := log + [e];
    }

    /** mesh_ensure_attached. */
    method EnsureAttached() returns (ok: bool)
      requires Valid()
      modifies this
      ensures Valid() && ok == attached && old(log) <= log
      ensures !ok ==> log != [] && log[|log| - 1] in {Tversion(false), Tattach(false)}
      ensures old(attached) <==> log == old(log)
      ensures !old(attached) ==> Handshake(old(versioned), log[|old(log)|..], attached, versioned)
      ensures old(attached) ==> versioned == old(versioned)
      ensures ok ==> Rooted(log)
      ensures ok && !old(attached) ==> log[|log| - 1] == Tattach(true)
      ensures Walks(log) == Walks(old(log))
      ensures forall i | |old(log)| <= i < |log| :: log[i].Tversion? || log[i].Tattach?
      ensures old(versioned) && CalmFrom(log, |old(log)|) ==>
                ok && |log| <= |old(log)| + 1 && NoTversionFrom(log, |old(log)|)
    {
      hide Loose, Justified, Rooted, Walks;
      if attached {
        return true;
      }
      var tattach: bool := *;
      if versioned {
        Note(Tattach(tattach));
        if tattach {
          attached := true;
          return true;
        }
        versioned := false;
      }
      var tversion: bool := *;
      Note(Tversion(tversion));
      assert old(versioned) ==> log[|old(log)|] == Tattach(false);
      if !tversion {
        return false;
      }
      versioned := true;
      tattach := *;
      Note(Tattach(tattach));
      assert old(versioned) ==> log[|old(log)|] == Tattach(false);
      attached := tattach;
      assert log[|old(log)|..] == (if old(versioned) then [Tattach(false)] else [])
                                  + [Tversion(true), Tattach(tattach)];
      NewSession(old(versioned), tattach);
      return attached;
    }

    /** mesh_remote_down, and the same two lines in fw9151_open_remote and fw9151_ctl_write. */
    method RemoteDown()
      requires Valid()
      modifies this
      ensures Valid() && !attached && log == old(log) && versioned == old(versioned)
    {
      attached := false;
    }

    /** mesh_host_disconnected. */
    method HostDisconnected()
      requires Valid()
      modifies this
      ensures Valid() && !attached && !versioned && log == old(log) + [Disconnect] && Walks(log) == Walks(old(log))
    {
      Note(Disconnect);
      attached, versioned := false, false;
    }

    /** Other clients' traffic over the link, and the 9151's own restarts. */
    ghost method Elsewhere(e: Event)
      requires Valid() && (e.Hold? || e.Drop? || e.Reboot?)
      modifies this`log
      ensures Valid() && log == old(log) + [e] && Walks(log) == Walks(old(log))
    {
      Note(e);
    }

    /** Anything the other users of the link do while this one holds no lock: find it stale, re-attach it, drop
        a host session, hold and drop conversations; or the 9151 restarts. */
    method Others()
      requires Valid()
      modifies this
      ensures Valid() && old(log) <= log && NoWalk(log, |old(log)|, |log|) && Walks(log) == Walks(old(log))
      ensures attached && !old(attached) ==> AttachedIn(log, |old(log)|, |log|)
      ensures old(versioned) && CalmFrom(log, |old(log)|) ==> versioned && NoTversionFrom(log, |old(log)|)
    {
      hide Loose, Justified, Rooted, Walks;
      var n: int := *;
      while n > 0
        invariant Valid() && old(log) <= log && NoWalk(log, |old(log)|, |log|) && Walks(log) == Walks(old(log))
        invariant attached && !old(attached) ==> AttachedIn(log, |old(log)|, |log|)
        invariant old(versioned) && CalmFrom(log, |old(log)|) ==> versioned && NoTversionFrom(log, |old(log)|)
      {
        n := n - 1;
        ghost var before := log;
        var what: int := *;
        if what == 0 {
          RemoteDown();
        } else if what == 1 {
          var _ := EnsureAttached();
        } else if what == 2 {
          HostDisconnected();
          assert log[|before|] == Disconnect;
        } else {
          ghost var e: Event := *;
          if e.Hold? || e.Drop? || e.Reboot? {
            Elsewhere(e);
          }
        }
        QuietParts(before, log, |old(log)|);
      }
    }

    /** fw9151_open_remote as far as the link goes: at most two attempts at the walk, the session dropped after
        each that fails and the link attached anew before the next, then the open; other users interleave
        wherever no lock is held. Every walk starts from a root fid the 9151 was given after its last Tversion,
        other users' aside. On a link that meets no failed Tattach, disconnect or reboot it never comes to a
        Tversion. */
    method OpenRemote() returns (ok: bool)
      requires Valid()
      modifies this
      ensures Valid() && old(log) <= log && log != [] && log != old(log)
      ensures if ok then log[|log| - 1] == Topen(true)
              else log[|log| - 1] in {Tversion(false), Tattach(false), Twalk(false), Topen(false)}
      ensures !ok && log[|log| - 1] == Twalk(false) ==> !attached && Walks(log) == Walks(old(log)) + 2
      ensures Walks(log) <= Walks(old(log)) + 2
      ensures WalksFromRoot(log, |old(log)|) && Reattached(log, |old(log)|)
      ensures old(versioned) && CalmFrom(log, |old(log)|) ==> versioned && NoTversionFrom(log, |old(log)|)
    {
      hide Loose, Justified, Rooted, Walks, WalksFromRoot, Reattached, AttachedIn, NoWalk;
      NoWalksYet(log);
      var attempt := 0;
      while attempt < 2
        invariant attempt <= 2 && Valid() && old(log) <= log
        invariant attempt == 0 ==> log == old(log)
        invariant attempt > 0 ==> log != [] && log != old(log) && log[|log| - 1] == Twalk(false) && !attached
        invariant Walks(log) == Walks(old(log)) + attempt
        invariant WalksFromRoot(log, |old(log)|) && Reattached(log, |old(log)|)
        invariant old(versioned) && CalmFrom(log, |old(log)|) ==> versioned && NoTversionFrom(log, |old(log)|)
      {
        attempt := attempt + 1;
        ghost var before := log;
        var walked := WalkOnce(|old(log)|);
        QuietParts(before, log, |old(log)|);
        if walked.None? {
          return false;
        }
        ReattachedNext(before, log, |old(log)|);
        if walked.value {
          ghost var there := log;
          ok := OpenWalked();
          QuietParts(there, log, |old(log)|);
          WalksMore(there, log, |old(log)|);
          ReattachedMore(there, log, |old(log)|);
          return;
        }
        RemoteDown();
      }
      ok := false;
    }

    /** One attempt at the walk, other users having been at the link before it and between the attach and the
        walk: None when the link cannot be attached. */
    method WalkOnce(ghost from: nat) returns (walked: Wire.Option<bool>)
      requires Valid() && from <= |log| && WalksFromRoot(log, from) && Reattached(log, from)
      modifies this
      ensures Valid() && old(log) <= log && log != [] && log != old(log) && WalksFromRoot(log, from)
      ensures match walked
              case None => log[|log| - 1] in {Tversion(false), Tattach(false)} && Reattached(log, from)
              case Some(ok) => log[|log| - 1] == Twalk(ok)
      ensures Walks(log) == Walks(old(log)) + if walked.Some? then 1 else 0
      ensures walked.Some? ==> NoWalk(log, |old(log)|, |log| - 1)
      ensures walked.Some? && !old(attached) ==> AttachedIn(log, |old(log)|, |log| - 1)
      ensures old(versioned) && CalmFrom(log, |old(log)|) ==> versioned && NoTversionFrom(log, |old(log)|)
    {
      hide Loose, Justified, Rooted, Walks, WalksFromRoot, Reattached, AttachedIn;
      var up := AttachForWalk();
      WalksMore(old(log), log, from);
      if !up {
        ReattachedMore(old(log), log, from);
        return Wire.None;
      }
      ghost var linked := log;
      Others();
      QuietParts(linked, log, |old(log)|);
      var ok: bool := *;
      ghost var now := log;
      assert now[..|linked|] == linked;
      WalkNoted(now, from, |linked|, ok);
      Note(Twalk(ok));
      QuietParts(now, log, |old(log)|);
      if !old(attached) {
        AttachedInMore(linked, log, |old(log)|, |linked|);
      }
      walked := Wire.Some(ok);
    }

    method AttachForWalk() returns (up: bool)
      requires Valid()
      modifies this
      ensures Valid() && up == attached && old(log) <= log && NoWalk(log, |old(log)|, |log|)
      ensures Walks(log) == Walks(old(log)) && (up ==> Rooted(log))
      ensures !up ==> log != [] && log != old(log) && log[|log| - 1] in {Tversion(false), Tattach(false)}
      ensures up && !old(attached) ==> AttachedIn(log, |old(log)|, |log|)
      ensures old(versioned) && CalmFrom(log, |old(log)|) ==> versioned && NoTversionFrom(log, |old(log)|)
    {
      hide Loose, Justified, Rooted, Walks;
      Others();
      ghost var early := log;
      up := EnsureAttached();
      QuietParts(early, log, |old(log)|);
    }

    /** The open of the walked fid. */
    method OpenWalked() returns (ok: bool)
      requires Valid()
      modifies this
      ensures Valid() && old(log) <= log && log != [] && log != old(log) && log[|log| - 1] == Topen(ok)
      ensures NoWalk(log, |old(log)|, |log|) && Walks(log) == Walks(old(log))
      ensures old(versioned) && CalmFrom(log, |old(log)|) ==> versioned && NoTversionFrom(log, |old(log)|)
    {
      hide Loose, Justified, Rooted, Walks;
      Others();
      ghost var now := log;
      ok := *;
      Note(Topen(ok));
      QuietParts(now, log, |old(log)|);
    }

    /** One round of mesh_link_monitor_fn: a live link is left strictly alone. */
    method MonitorRound() returns (up: bool)
      requires Valid()
      modifies this
      ensures Valid() && old(log) <= log && up == attached
      ensures old(attached) <==> log == old(log)
    {
      up := attached;
      if !up {
        up := EnsureAttached();
      }
    }
  }
}
