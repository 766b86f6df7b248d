/** The one lateness a push does not survive: a Tversion, its own or another's, that lands while it is under
    way. Everything else that lands late leaves the outcome as it was. */
module LateVersion {
  import opened Wire
  import opened MeshPeer
  import opened MeshPush

  const OFFSETS := 0x1_0000_0000_0000_0000

  /** The Twrites of the tiles still to be sent, from an offset to the end of the file, tagged from `tag` on. */
  function Remaining(file: Bytes, off: nat, max: nat, tag: nat): (ms: seq<TMsg>)
    requires off <= |file| < OFFSETS && max > 0
    decreases |file| - off
  {
    if off == |file| then [] else
    var n := if |file| - off > max then max else |file| - off;
    [Twrite(tag % 0x1_0000, 2, off, file[off..off + n])] + Remaining(file, off + n, max, tag + 1)
  }

  /** The session's first three requests take the tags 1 to 3. */
  const FIRST_TILE := 4

  /** The clunk after those tiles, the next tag being the one after theirs. */
  function Closer(tiles: seq<TMsg>, tag: nat): TMsg { Tclunk((tag + |tiles|) % 0x1_0000, 2) }

  predicate Carries(ms: seq<TMsg>, tiles: seq<(nat, Bytes)>) {
    if ms == [] || tiles == [] then ms == [] && tiles == []
    else ms[0].Twrite? && (ms[0].offset, ms[0].data) == tiles[0] && Carries(ms[1..], tiles[1..])
  }

  /** They carry the tiles of that stretch. */
  lemma {:induction false} RemainingTiles(file: Bytes, off: nat, max: nat, tag: nat)
    requires off <= |file| < OFFSETS && max > 0
    ensures Carries(Remaining(file, off, max, tag), Tiles(off, file[off..], max))
    decreases |file| - off
  {
    if off < |file| {
      var n := if |file| - off > max then max else |file| - off;
      assert file[off..][0..] == file[off..] && file[off..][n..] == file[off + n..];
      SliceOfSlice(file, file[off..], off, 0, n);
      RemainingTiles(file, off + n, max, tag + 1);
    }
  }

  lemma OpenTakes(p: Peer, base: Bytes, file: Bytes, m: TMsg)
    requires base <= p.slot <= Over(base, file) && p.stage == 4
    requires m.Twrite? && m.fid == 2 && m.offset <= |p.slot|
    requires m.offset + |m.data| <= |file| && m.data == file[m.offset..m.offset + |m.data|]
    ensures var q := Serve(p, m);
            && q == p.(slot := q.slot) && m.offset + |m.data| <= |q.slot|
            && base <= q.slot <= Over(base, file)
  {
    PieceFits(base, file, p.slot, m.offset, m.data);
    StoreGrows(p.slot, m.offset, m.data);
    hide Store, Over;
  }

  /** Into an open file whose slot began as `base` they write the file over it. */
  lemma {:induction false} RemainingOver(p: Peer, base: Bytes, file: Bytes, off: nat, max: nat, tag: nat)
    requires base <= p.slot <= Over(base, file) && p.stage == 4
    requires off <= |p.slot| && off <= |file| < OFFSETS && 0 < max
    ensures Settle(p, Remaining(file, off, max, tag)) == p.(slot := Over(base, file))
    decreases |file| - off
  {
    hide Serve;
    if off == |file| {
      assert p.slot == Over(base, file);
    } else {
      hide Over;
      var n := if |file| - off > max then max else |file| - off;
      var m := Twrite(tag % 0x1_0000, 2, off, file[off..off + n]);
      var rest := Remaining(file, off + n, max, tag + 1);
      OpenTakes(p, base, file, m);
      RemainingOver(Serve(p, m), base, file, off + n, max, tag + 1);
      assert ([m] + rest)[1..] == rest;
    }
  }

  lemma RemainingOpen(p: Peer, file: Bytes, off: nat, max: nat, tag: nat)
    requires off <= |p.slot| && p.slot <= file && |file| < OFFSETS && 0 < max && p.stage == 4
    ensures Settle(p, Remaining(file, off, max, tag)) == p.(slot := file)
  {
    hide Settle;
    OverIsFile(p.slot, file);
    RemainingOver(p, p.slot, file, off, max, tag);
  }

  lemma {:induction false} RemainingClosed(p: Peer, file: Bytes, off: nat, max: nat, tag: nat, after: seq<TMsg>)
    requires off <= |file| < OFFSETS && 0 < max && p.stage != 4
    ensures Settle(p, Remaining(file, off, max, tag) + after) == Settle(p, after)
    decreases |file| - off
  {
    if off == |file| {
      assert [] + after == after;
    } else {
      var n := if |file| - off > max then max else |file| - off;
      var m := Twrite(tag % 0x1_0000, 2, off, file[off..off + n]);
      var rest := Remaining(file, off + n, max, tag + 1);
      assert ([m] + rest + after)[1..] == rest + after;
      RemainingClosed(p, file, off + n, max, tag + 1, after);
    }
  }

  /** Suppose part of the file is in, one request lands late, and then every remaining tile lands and is
      acknowledged. The whole file is in exactly when the late one was not a Tversion, this run's own or any
      other gateway's: the peer's server has one session for all of them. */
  lemma LateRequestExactly(p: Peer, file: Bytes, late: TMsg, max: nat, tag: nat)
    requires PeerOk(p, file) && p.stage == 4 && |p.slot| < |file| < OFFSETS && 0 < max <= TILE
    requires MsgOk(p, late, file)
    ensures var ms := Remaining(file, |p.slot|, max, tag);
            Settle(Serve(p, late), ms).slot == file <==> !late.Tversion?
  {
    var off, q := |p.slot|, Serve(p, late);
    var ms := Remaining(file, off, max, tag);
    if late.Tversion? {
      RemainingClosed(q, file, off, max, tag, []);
      assert ms + [] == ms;
    } else {
      if late.Twrite? {
        StoreGrows(p.slot, late.offset, late.data);
      }
      RemainingOpen(q, file, off, max, tag);
    }
  }

  /** And it can end in a finalized part: the late Tversion closes the file, the remaining tiles are
      acknowledged into nothing, the rest of the session set-up lands late as well, and the clunk finalizes
      what was in when the Tversion struck. */
  lemma LateSessionFinalizesPart(p: Peer, file: Bytes, max: nat, tag: nat, maxMsg: u32)
    requires PeerOk(p, file) && p.stage == 4 && |p.slot| < |file| < OFFSETS && 0 < max <= TILE
    ensures var rest := Remaining(file, |p.slot|, max, tag);
            var q := Settle(Serve(p, Tversion(maxMsg, VERSION)), rest + (SetUp() + [Closer(rest, tag)]));
            q.committed == Some(p.slot) && p.slot != file
  {
    var rest := Remaining(file, |p.slot|, max, tag);
    var clunk := Closer(rest, tag);
    var late := SetUp() + [clunk];
    var q := Serve(p, Tversion(maxMsg, VERSION));
    RemainingClosed(q, file, |p.slot|, max, tag, late);
    SettleConcat(q, SetUp(), [clunk]);
    SetUpOpens(q);
    hide Settle, SetUp;
    SettleOne(q.(stage := 4), clunk);
  }

  // ---- as runs of the air ----

  function SetUp(): seq<TMsg> {
    [Tattach(1, 0, 0xffff_ffff, UNAME, []), Twalk(2, 0, 2, [DEV, FIRMWARE]), Topen(3, 2, OWRITE)]
  }

  /** Each request sent, landing once and served before the next. */
  function Sends(ms: seq<TMsg>): seq<Step> {
    if ms == [] then [] else [Step.Transmit(ms[0]), Step.Land(ms[0]), Step.Process] + Sends(ms[1..])
  }

  /** Requests landing again, and served. */
  function Again(ms: seq<TMsg>): seq<Step> {
    if ms == [] then [] else [Step.Land(ms[0]), Step.Process] + Again(ms[1..])
  }

  function Elements(ms: seq<TMsg>): set<TMsg> { set m | m in ms }

  lemma LandAndProcess(start: Peer, steps: seq<Step>, m: TMsg)
    requires Exec(start, steps).ring == [] && m in Exec(start, steps).sent
    ensures var a := Exec(start, steps);
            Exec(start, steps + [Step.Land(m), Step.Process]) == Air(Serve(a.peer, m), [], a.sent)
  {
    hide Serve, Exec;
    var a := Exec(start, steps);
    ExecMore(start, steps, Step.Land(m));
    ExecMore(start, steps + [Step.Land(m)], Step.Process);
    assert steps + [Step.Land(m)] + [Step.Process] == steps + [Step.Land(m), Step.Process];
    assert [m][1..] == [] && [] + [m] == [m];
  }

  lemma {:induction false} AgainRun(start: Peer, steps: seq<Step>, ms: seq<TMsg>)
    requires Exec(start, steps).ring == [] && forall m | m in ms :: m in Exec(start, steps).sent
    ensures var a := Exec(start, steps); Exec(start, steps + Again(ms)) == Air(Settle(a.peer, ms), [], a.sent)
    decreases |ms|
  {
    hide Serve, Exec;
    if ms == [] {
      assert steps + [] == steps;
    } else {
      var one := [Step.Land(ms[0]), Step.Process];
      LandAndProcess(start, steps, ms[0]);
      AgainRun(start, steps + one, ms[1..]);
      assert steps + Again(ms) == steps + one + Again(ms[1..]);
    }
  }

  lemma SendOne(start: Peer, steps: seq<Step>, m: TMsg)
    requires Exec(start, steps).ring == []
    ensures var a := Exec(start, steps);
            Exec(start, steps + [Step.Transmit(m), Step.Land(m), Step.Process])
            == Air(Serve(a.peer, m), [], a.sent + {m})
  {
    hide Serve, Exec;
    ExecMore(start, steps, Step.Transmit(m));
    LandAndProcess(start, steps + [Step.Transmit(m)], m);
    assert steps + [Step.Transmit(m)] + [Step.Land(m), Step.Process]
        == steps + [Step.Transmit(m), Step.Land(m), Step.Process];
  }

  lemma {:induction false} SendsRun(start: Peer, steps: seq<Step>, ms: seq<TMsg>)
    requires Exec(start, steps).ring == []
    ensures var a := Exec(start, steps);
            Exec(start, steps + Sends(ms)) == Air(Settle(a.peer, ms), [], a.sent + Elements(ms))
    decreases |ms|
  {
    hide Serve, Exec;
    if ms == [] {
      assert steps + [] == steps && Exec(start, steps).sent + Elements([]) == Exec(start, steps).sent;
    } else {
      var one := [Step.Transmit(ms[0]), Step.Land(ms[0]), Step.Process];
      SendOne(start, steps, ms[0]);
      SendsRun(start, steps + one, ms[1..]);
      assert steps + Sends(ms) == steps + one + Sends(ms[1..]);
      assert Elements(ms) == {ms[0]} + Elements(ms[1..]);
    }
  }

  lemma {:induction false} SettleConcat(p: Peer, a: seq<TMsg>, b: seq<TMsg>)
    ensures Settle(p, a + b) == Settle(Settle(p, a), b)
    decreases |a|
  {
    hide Serve;
    if a == [] {
      assert a + b == b;
    } else {
      assert (a + b)[1..] == a[1..] + b;
      SettleConcat(Serve(p, a[0]), a[1..], b);
    }
  }

  lemma SetUpOpens(q: Peer)
    requires q.stage == 1
    ensures Settle(q, SetUp()) == q.(stage := 4)
  {
    var all := SetUp();
    assert all[1..][1..][1..] == [];
    var q1 := Serve(q, all[0]);
    var q2 := Serve(q1, all[1]);
    assert Settle(q, all) == Settle(q1, all[1..]) == Settle(q2, all[1..][1..]);
  }

  /** A new session, whatever the peer's old one was. */
  lemma OpenedWith(p: Peer, version: TMsg, ms: seq<TMsg>)
    requires version.Tversion?
    ensures Settle(p, [version] + SetUp() + ms) == Settle(p.(stage := 4), ms)
  {
    SettleConcat(p, [version] + SetUp(), ms);
    SettleConcat(p, [version], SetUp());
    SettleOne(p, version);
    SetUpOpens(Serve(p, version));
  }

  /** A whole run in which part of an image is finalized: the session is set up and the first tile lands; the
      Tversion lands again; every other tile is sent and lands once; the rest of the set-up lands again; and the
      clunk, sent once the sender has had every acknowledgement it waits for, finalizes the first tile. */
  lemma LateSessionRun(file: Bytes, n: nat, max: nat, maxMsg: u32)
    requires n < |file| < OFFSETS && n <= TILE && 0 < max <= TILE
    ensures var version := Tversion(maxMsg, VERSION);
            var before := Sends([version] + SetUp() + [Twrite(FIRST_TILE, 2, 0, file[..n])]) + Again([version]);
            var rest := Remaining(file, n, max, FIRST_TILE + 1);
            var a := Exec(IDLE, before + Sends(rest) + Again(SetUp()) + Sends([Closer(rest, FIRST_TILE + 1)]));
            a.peer.committed == Some(file[..n]) && file[..n] != file && a.ring == []
  {
    var start, tag := IDLE, FIRST_TILE + 1;
    var version, first := Tversion(maxMsg, VERSION), Twrite(FIRST_TILE, 2, 0, file[..n]);
    var opening, rest := [version] + SetUp() + [first], Remaining(file, n, max, tag);
    var clunk := Closer(rest, tag);
    var p := IDLE.(stage := 4, slot := file[..n]);
    OpenedWith(start, version, [first]);
    FirstTile(file, n);
    assert opening == [version] + SetUp() + [first];
    hide Serve, Exec, Settle, Remaining, Closer;
    StartIsQuiet(start);
    SendsRun(start, [], opening);
    var s1 := [] + Sends(opening);
    assert version in opening;
    AgainRun(start, s1, [version]);
    var s2 := s1 + Again([version]);
    SendsRun(start, s2, rest);
    var s3 := s2 + Sends(rest);
    forall m | m in SetUp()
      ensures m in Exec(start, s3).sent
    {
      assert m in opening;
    }
    AgainRun(start, s3, SetUp());
    var s4 := s3 + Again(SetUp());
    SendsRun(start, s4, [clunk]);
    SettleOne(p, version);
    SettleConcat(Serve(p, version), rest, SetUp() + [clunk]);
    SettleConcat(Settle(Serve(p, version), rest), SetUp(), [clunk]);
    LateSessionFinalizesPart(p, file, max, tag, maxMsg);
    assert s1 == Sends(opening);
  }

  lemma StartIsQuiet(start: Peer)
    ensures Exec(start, []) == Quiet(start) && Quiet(start).ring == [] && Quiet(start).peer == start
  {
  }

  lemma SettleOne(p: Peer, m: TMsg)
    ensures Settle(p, [m]) == Serve(p, m)
  {
    hide Serve;
    assert [m][1..] == [];
  }

  lemma FirstTile(file: Bytes, n: nat)
    requires n <= |file|
    ensures Settle(IDLE.(stage := 4), [Twrite(FIRST_TILE, 2, 0, file[..n])]) == IDLE.(stage := 4, slot := file[..n])
    ensures n < |file| ==> file[..n] != file && PeerOk(IDLE.(stage := 4, slot := file[..n]), file)
  {
    SettleOne(IDLE.(stage := 4), Twrite(FIRST_TILE, 2, 0, file[..n]));
    assert file[..n][0..] == file[..n] && [] + file[..n] == file[..n];
  }

  /** A whole run in which nothing is finalized although the sender has done everything: all tiles land, and of
      the clunk's two transmissions neither does. The push still reports success. */
  lemma LostClunkRun(file: Bytes, max: nat, maxMsg: u32)
    requires |file| < OFFSETS && 0 < max <= TILE
    ensures var tiles := Remaining(file, 0, max, FIRST_TILE);
            var sends := Sends([Tversion(maxMsg, VERSION)] + SetUp() + tiles);
            var clunk := Closer(tiles, FIRST_TILE);
            var a := Exec(IDLE, sends + [Step.Transmit(clunk), Step.Transmit(clunk)]);
            a.peer.slot == file && a.ring == [] && clunk in a.sent && a.peer.committed.None?
  {
    var start := IDLE;
    var version, tiles := Tversion(maxMsg, VERSION), Remaining(file, 0, max, FIRST_TILE);
    var clunk := Step.Transmit(Closer(tiles, FIRST_TILE));
    OpenedWith(start, version, tiles);
    RemainingOpen(IDLE.(stage := 4), file, 0, max, FIRST_TILE);
    hide Serve, Exec, Settle, Remaining;
    StartIsQuiet(start);
    var sends := Sends([version] + SetUp() + tiles);
    SendsRun(start, [], [version] + SetUp() + tiles);
    assert [] + sends == sends;
    ExecMore(start, sends, clunk);
    ExecMore(start, sends + [clunk], clunk);
    assert sends + [clunk] + [clunk] == sends + [clunk, clunk];
  }
}
