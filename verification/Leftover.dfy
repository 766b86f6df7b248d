/** A firmware push to a peer whose slot is not empty: its flash writer skips what it has, whatever image that
    is part of. */
module Leftover {
  import opened Wire
  import opened MeshPeer
  import opened MeshPush
  import opened LateVersion

  /** A push over whatever the slot holds: the file is in at the end if and only if the slot held a beginning of
      it. */
  lemma WholeExactlyOver(p: Peer, file: Bytes, max: nat, tag: nat)
    requires p.stage == 4 && |file| < OFFSETS && 0 < max
    ensures var q := Settle(p, Remaining(file, 0, max, tag));
            q == p.(slot := Over(p.slot, file)) && (q.slot == file <==> p.slot <= file)
  {
    hide Settle, Remaining;
    OverIsFile(p.slot, file);
    RemainingOver(p, p.slot, file, 0, max, tag);
  }

  /** A whole run with two images: the push of the first is given up after n bytes, the peer is targeted again,
      all tiles of the second and the clunk land once and in order. What is finalized is the second written
      over what there was of the first. */
  lemma SecondImageRun(one: Bytes, n: nat, two: Bytes, max: nat, maxMsg: u32)
    requires n <= |one| < OFFSETS && |two| < OFFSETS && 0 < max <= TILE
    ensures var opening := [Tversion(maxMsg, VERSION)] + SetUp();
            var givenUp := Sends(opening + Remaining(one[..n], 0, max, FIRST_TILE));
            var tiles := Remaining(two, 0, max, FIRST_TILE);
            var again := Sends(opening + tiles + [Closer(tiles, FIRST_TILE)]);
            var between, a := Exec(IDLE, givenUp), Exec(IDLE, givenUp + again);
            && Initial(between.peer) && between.peer.slot == one[..n]
            && a.ring == [] && a.peer.committed == Some(Over(one[..n], two))
            && (a.peer.committed == Some(two) <==> one[..n] <= two)
  {
    var start, version := IDLE, Tversion(maxMsg, VERSION);
    var opening, part := [version] + SetUp(), Remaining(one[..n], 0, max, FIRST_TILE);
    var tiles := Remaining(two, 0, max, FIRST_TILE);
    var clunk := Closer(tiles, FIRST_TILE);
    var p := IDLE.(stage := 4, slot := one[..n]);
    OpenedWith(start, version, part);
    RemainingOpen(IDLE.(stage := 4), one[..n], 0, max, FIRST_TILE);
    OpenedWith(p, version, tiles + [clunk]);
    hide Serve, Exec, Settle, Remaining, SetUp, Over;
    StartIsQuiet(start);
    var givenUp := Sends(opening + part);
    SendsRun(start, [], opening + part);
    assert [] + givenUp == givenUp;
    SendsRun(start, givenUp, opening + tiles + [clunk]);
    assert opening + tiles + [clunk] == opening + (tiles + [clunk]);
    SettleConcat(p, tiles, [clunk]);
    WholeExactlyOver(p, two, max, FIRST_TILE);
    CloserCommits(p.(slot := Over(one[..n], two)), clunk);
  }

  lemma CloserCommits(p: Peer, clunk: TMsg)
    requires p.stage == 4 && clunk.Tclunk? && clunk.fid == 2
    ensures Settle(p, [clunk]).committed == Some(p.slot)
  {
    SettleOne(p, clunk);
  }
}
