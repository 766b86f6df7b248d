/** Firmware for the 9151 through the relay (fw9151_write, fw9151_clunk, dect_relay/src/main.c): the host's
    blocks are forwarded in bounded remote writes at the relay's own running offset, the host's offset
    being ignored; and the host loop that feeds it (do_put, tools/aether_conv.c). What the 9151 answers is an
    arbitrary function of how many calls came before. */
module RelayWrite {
  import opened Wire

  /** One remote write: where it went, what it carried, and how much of it was accepted. */
  datatype Piece = Piece(off: nat, data: Bytes, accepted: nat)

  predicate WellFormed(p: Piece, chunk: nat) { 0 < |p.data| <= chunk && p.accepted <= |p.data| }

  function Accepted(p: Piece): Bytes {
    if p.accepted <= |p.data| then p.data[..p.accepted] else p.data
  }

  /** What the 9151 has taken of a stream. */
  function Image(pieces: seq<Piece>): Bytes {
    if pieces == [] then [] else Image(pieces[..|pieces| - 1]) + Accepted(pieces[|pieces| - 1])
  }

  /** Contiguous from offset 0: each remote write begins where what was accepted before it ends. */
  predicate Contiguous(pieces: seq<Piece>, chunk: nat) {
    && (forall p | p in pieces :: WellFormed(p, chunk))
    && forall i | 0 <= i < |pieces| :: pieces[i].off == |Image(pieces[..i])|
  }

  lemma ContiguousSnoc(pieces: seq<Piece>, p: Piece, chunk: nat)
    requires Contiguous(pieces, chunk) && WellFormed(p, chunk) && p.off == |Image(pieces)|
    ensures Contiguous(pieces + [p], chunk) && Image(pieces + [p]) == Image(pieces) + Accepted(p)
  {
    hide Image;
    var more := pieces + [p];
    ImageSnoc(pieces, p);
    forall i | 0 <= i < |more|
      ensures more[i].off == |Image(more[..i])|
    {
      assert more[..i] == if i < |pieces| then pieces[..i] else pieces;
    }
  }

  lemma ImageSnoc(pieces: seq<Piece>, p: Piece)
    ensures Image(pieces + [p]) == Image(pieces) + Accepted(p)
  {
    var more := pieces + [p];
    assert more[..|more| - 1] == pieces;
  }

  lemma Grown(image: Bytes, buf: Bytes, done: nat, n: nat, ret: nat)
    requires ret <= n && done + n <= |buf|
    ensures image + buf[..done] + buf[done..done + n][..ret] == image + buf[..done + ret]
  {
    assert buf[..done] + buf[done..done + n][..ret] == buf[..done + ret];
  }

  lemma EmptyImage(chunk: nat)
    ensures Contiguous([], chunk) && Image([]) == []
  {
  }

  // ---- what the 9151 answers ----

  /** The outcome of the k-th open, and of the k-th write: negative fails, else how much it will take. */
  datatype Remote = Remote(opens: nat -> bool, takes: nat -> int)

  function Taken(remote: Remote, k: nat, n: nat): (t: int)
    ensures -1 <= t <= n
  {
    if remote.takes(k) < 0 then -1 else if remote.takes(k) > n then n else remote.takes(k)
  }

  function Lesser(a: nat, b: nat): nat { if a < b then a else b }

  /** A block of `len` bytes of which `done` are through, from the k-th write on: how much of it is reported
      as taken (or -1), and the number of writes made by then. */
  function BlockSent(remote: Remote, chunk: nat, len: nat, done: nat, k: nat): (int, nat)
    requires chunk > 0 && done <= len
    decreases len - done
  {
    if done == len then (len, k) else
    var n := Lesser(len - done, chunk);
    var t := Taken(remote, k, n);
    if t < 0 then (-1, k + 1)
    else if t < n then (done + t, k + 1)
    else BlockSent(remote, chunk, len, done + n, k + 1)
  }

  /** How a block fares: it goes out in whole chunks until one is not taken whole; what comes back is an error if
      that one failed, what was taken by then if it was short, and the block's length if none was. */
  lemma {:induction false} BlockStops(remote: Remote, chunk: nat, len: nat, done: nat, k: nat, j: nat)
    requires chunk > 0 && done + j * chunk < len && forall m | k <= m < k + j :: remote.takes(m) >= chunk
    ensures var at := done + j * chunk;
            var n := if len - at < chunk then len - at else chunk;
            var t := remote.takes(k + j);
            var sent := BlockSent(remote, chunk, len, done, k);
            && (t < 0 ==> sent == (-1, k + j + 1))
            && (0 <= t < n ==> sent == (at + t, k + j + 1))
            && (t >= n && at + n == len ==> sent == (len, k + j + 1))
    decreases j
  {
    if j > 0 {
      assert j * chunk == chunk + (j - 1) * chunk && remote.takes(k) >= chunk;
      BlockStops(remote, chunk, len, done + chunk, k + 1, j - 1);
    }
  }

  /** The calls made for a block all succeeded but the last, which failed if the block did. */
  lemma {:induction false} BlockCalls(remote: Remote, chunk: nat, len: nat, done: nat, k: nat)
    requires chunk > 0 && done <= len
    ensures var (ret, k') := BlockSent(remote, chunk, len, done, k);
            && k <= k' && (forall m | k <= m < k' - 1 :: remote.takes(m) >= 0)
            && (done < len ==> k < k' && (ret < 0 <==> remote.takes(k' - 1) < 0))
            && (done == len ==> ret == len)
    decreases len - done
  {
    if done < len {
      var n := Lesser(len - done, chunk);
      if Taken(remote, k, n) == n {
        BlockCalls(remote, chunk, len, done + n, k + 1);
      }
    }
  }

  class Stream {
    const remote: Remote
    const chunk: nat             // CONFIG_NINEP_REMOTE_FS_WRITE_CHUNK
    var openings: nat              // opens and writes the remote has answered
    var written: nat
    var writing: bool
    var woff: nat
    ghost var pieces: seq<Piece> // the remote writes of the current stream

    ghost predicate Valid()
      reads this
    {
      chunk > 0 && Contiguous(pieces, chunk) && (writing ==> woff == |Image(pieces)|)
    }

    constructor (remote: Remote, chunk: nat)
      requires chunk > 0
      ensures Valid() && !writing && this.chunk == chunk && this.remote == remote && openings == written == 0
    {
      this.remote, this.chunk := remote, chunk;
      openings, written, writing, woff, pieces := 0, 0, false, 0, [];
    }

    /** What the stream holds before this call writes to it. */
    ghost function Before(): Bytes
      reads this
      requires Valid()
    {
      if writing then Image(pieces) else []
    }

    /** ninep_client_write on the held fid: fails, or takes some of the data. */
    method RemoteWrite(off: nat, data: Bytes) returns (ret: int)
      requires writing && Contiguous(pieces, chunk) && 0 < |data| <= chunk && off == |Image(pieces)|
      modifies this`pieces, this`written
      ensures Contiguous(pieces, chunk) && written == old(written) + 1
      ensures ret == Taken(remote, old(written), |data|)
      ensures ret < 0 ==> pieces == old(pieces)
      ensures ret >= 0 ==> && pieces == old(pieces) + [Piece(off, data, ret)]
                           && Image(pieces) == old(Image(pieces)) + data[..ret]
    {
      hide Contiguous, Image, Taken;
      ret := Taken(remote, written, |data|);
      written := written + 1;
      if ret >= 0 {
        ContiguousSnoc(pieces, Piece(off, data, ret), chunk);
        pieces := pieces + [Piece(off, data, ret)];
      }
    }

    /** fw9151_write: the stream has grown by exactly the bytes the host is told were taken, in remote writes
        contiguous from 0 and no larger than the chunk, and woff is their total; a failed remote write ends
        the stream. */
    method Write(buf: Bytes) returns (ret: int)
      requires Valid()
      modifies this
      ensures Valid() && ret <= |buf|
      ensures ret >= 0 ==> writing && Image(pieces) == old(Before()) + buf[..ret] && woff == |Image(pieces)|
      ensures ret < 0 ==> !writing
      ensures old(writing) ==> old(pieces) <= pieces
      ensures openings == old(openings) + if old(writing) then 0 else 1
      ensures if old(writing) || remote.opens(old(openings))
              then (ret, written) == BlockSent(remote, chunk, |buf|, 0, old(written))
              else ret == -1 && written == old(written)
    {
      hide Contiguous, Image, Taken;
      if !writing {
        openings := openings + 1;
        if !remote.opens(openings - 1) {
          return -1;
        }
        writing, woff, pieces := true, 0, [];
        EmptyImage(chunk);
      }
      var done := 0;
      while done < |buf|
        invariant done <= |buf| && writing && chunk > 0 && Contiguous(pieces, chunk)
        invariant Image(pieces) == old(Before()) + buf[..done]
        invariant woff + done == |Image(pieces)|
        invariant old(writing) ==> old(pieces) <= pieces
        invariant openings == old(openings) + if old(writing) then 0 else 1
        invariant BlockSent(remote, chunk, |buf|, done, written) == BlockSent(remote, chunk, |buf|, 0, old(written))
      {
        var n := Lesser(|buf| - done, chunk);
        ret := RemoteWrite(woff + done, buf[done..done + n]);
        if ret < 0 {
          writing := false;
          return;
        }
        Grown(old(Before()), buf, done, n, ret);
        done := done + ret;
        if ret < n {
          woff := woff + done;
          return done;
        }
      }
      woff := woff + done;
      ret := done;
    }

    /** fw9151_clunk: the stream ends as it stands. */
    method Clunk() returns (total: nat)
      requires Valid()
      modifies this`writing
      ensures Valid() && !writing && pieces == old(pieces)
      ensures old(writing) ==> total == |Image(pieces)|
    {
      total := if writing then woff else 0;
      writing := false;
    }
  }

  // ---- the host's loop ----

  /** do_put from a position on, `image` being what the 9151 has: what it has at the end, or None when a call
      fails. The file is read on by whole blocks whatever was taken of the last one. */
  function PutRun(remote: Remote, file: Bytes, size: nat, chunk: nat, pos: nat, k: nat, image: Bytes): Option<Bytes>
    requires size > 0 && chunk > 0 && pos <= |file|
    decreases |file| - pos
  {
    if pos == |file| then Some(image) else
    var r := Lesser(|file| - pos, size);
    var (ret, k') := BlockSent(remote, chunk, r, 0, k);
    if ret < 0 || ret > r then None
    else PutRun(remote, file, size, chunk, pos + r, k', image + file[pos..pos + ret])
  }

  /** The sizes of the remote writes a length calls for, block by block. */
  function BlockCuts(len: nat, chunk: nat): seq<nat>
    requires chunk > 0
  {
    if len == 0 then [] else [Lesser(len, chunk)] + BlockCuts(len - Lesser(len, chunk), chunk)
  }

  function Cuts(len: nat, size: nat, chunk: nat): seq<nat>
    requires size > 0 && chunk > 0
  {
    if len == 0 then [] else BlockCuts(Lesser(len, size), chunk) + Cuts(len - Lesser(len, size), size, chunk)
  }

  /** From the k-th write on the 9151 will take every one of these sizes whole. */
  predicate TakesAll(remote: Remote, k: nat, cuts: seq<nat>) {
    forall j | 0 <= j < |cuts| :: remote.takes(k + j) >= cuts[j]
  }

  lemma TakesBoth(remote: Remote, k: nat, a: seq<nat>, b: seq<nat>)
    ensures TakesAll(remote, k, a + b) <==> TakesAll(remote, k, a) && TakesAll(remote, k + |a|, b)
  {
    if TakesAll(remote, k, a + b) {
      forall j | 0 <= j < |a|
        ensures remote.takes(k + j) >= a[j]
      {
        assert (a + b)[j] == a[j];
      }
      forall j | 0 <= j < |b|
        ensures remote.takes(k + |a| + j) >= b[j]
      {
        assert (a + b)[|a| + j] == b[j];
        assert remote.takes(k + (|a| + j)) >= (a + b)[|a| + j];
      }
    }
    if TakesAll(remote, k, a) && TakesAll(remote, k + |a|, b) {
      forall j | 0 <= j < |a + b|
        ensures remote.takes(k + j) >= (a + b)[j]
      {
        if j >= |a| {
          assert remote.takes(k + |a| + (j - |a|)) >= b[j - |a|];
        }
      }
    }
  }

  lemma {:induction false} BlockFull(remote: Remote, chunk: nat, len: nat, done: nat, k: nat)
    requires chunk > 0 && done <= len
    ensures var (ret, k') := BlockSent(remote, chunk, len, done, k);
            var cuts := BlockCuts(len - done, chunk);
            ret <= len && (ret == len <==> TakesAll(remote, k, cuts)) && (ret == len ==> k' == k + |cuts|)
    decreases len - done
  {
    if done < len {
      var n := Lesser(len - done, chunk);
      BlockFull(remote, chunk, len, done + n, k + 1);
      TakesBoth(remote, k, [n], BlockCuts(len - done - n, chunk));
      TakesOne(remote, k, n);
    }
  }

  lemma TakesOne(remote: Remote, k: nat, n: nat)
    ensures TakesAll(remote, k, [n]) <==> remote.takes(k) >= n
  {
    assert [n][0] == n && remote.takes(k + 0) == remote.takes(k);
    if TakesAll(remote, k, [n]) {
      assert remote.takes(k + 0) >= [n][0];
    }
  }

  /** Bytes left out are never made up for. */
  lemma {:induction false} PutNeverCatchesUp(remote: Remote, file: Bytes, size: nat, chunk: nat, pos: nat, k: nat,
                                             image: Bytes)
    requires size > 0 && chunk > 0 && pos <= |file|
    ensures var r := PutRun(remote, file, size, chunk, pos, k, image);
            r.Some? ==> |r.value| <= |image| + (|file| - pos)
    decreases |file| - pos
  {
    if pos < |file| {
      var r := Lesser(|file| - pos, size);
      var (ret, k') := BlockSent(remote, chunk, r, 0, k);
      if 0 <= ret <= r {
        PutNeverCatchesUp(remote, file, size, chunk, pos + r, k', image + file[pos..pos + ret]);
      }
    }
  }

  lemma FallsShort(remote: Remote, file: Bytes, size: nat, chunk: nat, pos: nat, k: nat)
    requires size > 0 && chunk > 0 && pos < |file|
    requires var r := Lesser(|file| - pos, size); BlockSent(remote, chunk, r, 0, k).0 < r
    ensures PutRun(remote, file, size, chunk, pos, k, file[..pos]) != Some(file)
  {
    hide BlockSent;
    var r := Lesser(|file| - pos, size);
    var (ret, k') := BlockSent(remote, chunk, r, 0, k);
    if ret >= 0 {
      PutNeverCatchesUp(remote, file, size, chunk, pos + r, k', file[..pos] + file[pos..pos + ret]);
    }
  }

  lemma GoesOn(remote: Remote, file: Bytes, size: nat, chunk: nat, pos: nat, k: nat)
    requires size > 0 && chunk > 0 && pos < |file|
    requires var r := Lesser(|file| - pos, size); BlockSent(remote, chunk, r, 0, k).0 == r
    ensures var r := Lesser(|file| - pos, size);
            PutRun(remote, file, size, chunk, pos, k, file[..pos])
            == PutRun(remote, file, size, chunk, pos + r, BlockSent(remote, chunk, r, 0, k).1, file[..pos + r])
  {
    hide BlockSent;
    var r := Lesser(|file| - pos, size);
    assert file[..pos] + file[pos..pos + r] == file[..pos + r];
  }

  /** What one block decides of the plan. */
  lemma PlanNext(remote: Remote, n: nat, size: nat, chunk: nat, k: nat)
    requires n > 0 && size > 0 && chunk > 0
    ensures var r := Lesser(n, size);
            var (ret, k') := BlockSent(remote, chunk, r, 0, k);
            && ret <= r
            && (TakesAll(remote, k, Cuts(n, size, chunk))
                <==> ret == r && TakesAll(remote, k', Cuts(n - r, size, chunk)))
  {
    var r := Lesser(n, size);
    BlockFull(remote, chunk, r, 0, k);
    TakesBoth(remote, k, BlockCuts(r, chunk), Cuts(n - r, size, chunk));
    hide TakesAll, BlockSent, BlockCuts;
  }

  /** For every remote, file and pair of block sizes: the loop succeeds with the file on the 9151 if and only
      if the remote takes every write of the plan whole. */
  lemma {:induction false} PutExactly(remote: Remote, file: Bytes, size: nat, chunk: nat, pos: nat, k: nat)
    requires size > 0 && chunk > 0 && pos <= |file|
    ensures PutRun(remote, file, size, chunk, pos, k, file[..pos]) == Some(file)
            <==> TakesAll(remote, k, Cuts(|file| - pos, size, chunk))
    decreases |file| - pos
  {
    if pos == |file| {
      assert file[..pos] == file;
    } else {
      hide TakesAll, BlockSent, Cuts, PutRun;
      var r := Lesser(|file| - pos, size);
      PlanNext(remote, |file| - pos, size, chunk, k);
      if BlockSent(remote, chunk, r, 0, k).0 == r {
        GoesOn(remote, file, size, chunk, pos, k);
        PutExactly(remote, file, size, chunk, pos + r, BlockSent(remote, chunk, r, 0, k).1);
      } else {
        FallsShort(remote, file, size, chunk, pos, k);
      }
    }
  }

  const IDLE_REMOTE := Remote(_ => true, _ => 0)

  /** A remote that takes nothing and never fails: the loop succeeds, and of any file nothing is there. */
  lemma {:induction false} PutSucceedsOnNothing(file: Bytes, size: nat, chunk: nat, pos: nat, k: nat)
    requires size > 0 && chunk > 0 && pos <= |file|
    ensures PutRun(IDLE_REMOTE, file, size, chunk, pos, k, []) == Some([])
    decreases |file| - pos
  {
    if pos < |file| {
      var r := Lesser(|file| - pos, size);
      assert BlockSent(IDLE_REMOTE, chunk, r, 0, k) == (0, k + 1);
      assert [] + file[pos..pos + 0] == [];
      PutSucceedsOnNothing(file, size, chunk, pos + r, k + 1);
    }
  }

  /** do_put's loop over the relay's stream: it succeeds with the file on the 9151 exactly when the stream opens
      and the remote takes every write of the plan whole, and when it succeeds the 9151 has what PutRun says. */
  method PutFile(stream: Stream, file: Bytes, size: nat) returns (ok: bool)
    requires stream.Valid() && !stream.writing && size > 0
    modifies stream
    ensures stream.Valid()
    ensures file == [] ==> ok
    ensures file != [] ==>
              if !stream.remote.opens(old(stream.openings)) then !ok
              else var r := PutRun(stream.remote, file, size, stream.chunk, 0, old(stream.written), []);
                   ok == r.Some? && (ok ==> stream.Before() == r.value)
    ensures ok ==> forall m | old(stream.written) <= m < stream.written :: stream.remote.takes(m) >= 0
    ensures !ok && stream.remote.opens(old(stream.openings)) ==>
              stream.written > old(stream.written) && stream.remote.takes(stream.written - 1) < 0
    ensures ok && stream.Before() == file
            <==> file == [] || (stream.remote.opens(old(stream.openings))
                                && TakesAll(stream.remote, old(stream.written), Cuts(|file|, size, stream.chunk)))
  {
    hide Contiguous, Image, BlockSent, TakesAll;
    ghost var remote, opens, k0 := stream.remote, stream.remote.opens(stream.openings), stream.written;
    PutExactly(remote, file, size, stream.chunk, 0, k0);
    assert file[..0] == [];
    var pos := 0;
    while pos < |file|
      invariant pos <= |file| && stream.Valid() && stream.remote == remote
      invariant pos == 0 ==> !stream.writing && stream.openings == old(stream.openings) && stream.written == k0
      invariant pos > 0 ==> stream.writing && opens
      invariant k0 <= stream.written && forall m | k0 <= m < stream.written :: remote.takes(m) >= 0
      invariant opens ==> (PutRun(remote, file, size, stream.chunk, pos, stream.written, stream.Before())
                           == PutRun(remote, file, size, stream.chunk, 0, k0, []))
    {
      var r := Lesser(|file| - pos, size);
      var blk := file[pos..pos + r];
      BlockCalls(remote, stream.chunk, r, 0, stream.written);
      var w := stream.Write(blk);
      if w < 0 {
        return false;
      }
      assert blk[..w] == file[pos..pos + w];
      pos := pos + r;
    }
    ok := true;
  }
}
