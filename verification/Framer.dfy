/** The relay's receive path from the 9151 (dect_relay/src/main.c): the UART interrupt reassembles 9P
    messages from whatever bytes each FIFO read returns, and a work handler takes finished ones. */
module Framer {
  import opened Wire

  /** `header`: the size parsed from the first seven bytes; `processing`: a finished message waits to be
      taken, and bytes that arrive meanwhile are dropped. */
  datatype Rx = Rx(buf: Bytes, header: Option<nat>, processing: bool)

  const EMPTY := Rx([], None, false)

  datatype Event = Read(bytes: Bytes) | HandOff

  /** One byte of the interrupt's inner loop. */
  function Feed(rx: Rx, b: byte, size: nat): Rx {
    var r := if |rx.buf| >= size then rx.(buf := [], header := None) else rx;   // overflow reset
    var buf := r.buf + [b];
    if r.header.None? && |buf| >= 7 then
      var expected := Ng32(buf);
      if expected < 7 || expected > size then Rx([], None, false)               // resync
      else Rx(buf, Some(expected), |buf| >= expected)
    else Rx(buf, r.header, r.header.Some? && |buf| >= r.header.value)
  }

  /** One FIFO read: fed until a message completes; what follows in the same read is lost. */
  function FeedRead(rx: Rx, bytes: Bytes, size: nat): Rx
    decreases |bytes|
  {
    if rx.processing || bytes == [] then rx else FeedRead(Feed(rx, bytes[0], size), bytes[1..], size)
  }

  function Step(rx: Rx, e: Event, size: nat): Rx {
    match e
    case Read(bytes) => FeedRead(rx, bytes, size)
    case HandOff => if rx.processing then EMPTY else rx
  }

  /** The messages handed up along a run. */
  function Delivered(rx: Rx, events: seq<Event>, size: nat): seq<Bytes>
    decreases |events|
  {
    if events == [] then []
    else (if events[0].HandOff? && rx.processing then [rx.buf] else [])
         + Delivered(Step(rx, events[0], size), events[1..], size)
  }

  function Exec(rx: Rx, events: seq<Event>, size: nat): Rx
    decreases |events|
  {
    if events == [] then rx else Exec(Step(rx, events[0], size), events[1..], size)
  }

  // ---- arbitrary bytes ----

  predicate Sound(rx: Rx, size: nat) {
    && (rx.header.None? ==> |rx.buf| < 7 && !rx.processing)
    && (rx.header.Some? ==>
          var e := rx.header.value;
          && 7 <= e <= size && 7 <= |rx.buf| <= e && Ng32(rx.buf) == e
          && (rx.processing <==> |rx.buf| == e))
  }

  lemma {:induction false} FeedReadSound(rx: Rx, bytes: Bytes, size: nat)
    requires size >= 7 && Sound(rx, size)
    ensures Sound(FeedRead(rx, bytes, size), size)
    decreases |bytes|
  {
    if !rx.processing && bytes != [] {
      FeedReadSound(Feed(rx, bytes[0], size), bytes[1..], size);
    }
  }

  lemma FeedOne(rx: Rx, b: byte, size: nat)
    requires !rx.processing
    ensures FeedRead(rx, [b], size) == Feed(rx, b, size)
  {
    hide Feed;
    assert [b][1..] == [];
  }

  /** Whatever the bytes and however they are read: the accumulator stays within its buffer, a parsed
      size is between 7 and the buffer size and never overrun, the overflow reset is never reached, and
      every message handed up is exactly as long as its own size field says. */
  lemma {:induction false} AnyBytesAreSound(rx: Rx, events: seq<Event>, size: nat)
    requires size >= 7 && Sound(rx, size)
    ensures var r := Exec(rx, events, size);
            && Sound(r, size) && |r.buf| <= size && (!r.processing ==> |r.buf| < size)
    ensures forall m | m in Delivered(rx, events, size) :: 7 <= |m| <= size && Ng32(m) == |m|
    decreases |events|
  {
    if events != [] {
      if events[0].Read? {
        FeedReadSound(rx, events[0].bytes, size);
      }
      AnyBytesAreSound(Step(rx, events[0], size), events[1..], size);
    }
  }

  /** Seven bytes whose size cannot be a frame's are dropped together, and the next byte starts anew; any others
      are kept. */
  lemma ResyncExactly(b: Bytes, size: nat)
    requires |b| == 7 <= size
    ensures FeedRead(EMPTY, b, size) == (if 7 <= Ng32(b) <= size then Rx(b, Some(Ng32(b)), Ng32(b) == 7) else EMPTY)
  {
    hide Ng32;
    FirstSix(b, 6, size);
    FeedReadSplit(EMPTY, b[..6], b[6..], size);
    assert b[..6] + b[6..] == b && b[6..] == [b[6]] && b[..6] + [b[6]] == b;
    FeedOne(Rx(b[..6], None, false), b[6], size);
  }

  lemma {:induction false} FeedReadSplit(rx: Rx, a: Bytes, b: Bytes, size: nat)
    ensures FeedRead(rx, a + b, size) == FeedRead(FeedRead(rx, a, size), b, size)
    decreases |a|
  {
    hide Feed;
    if a == [] {
      assert a + b == b;
    } else if !rx.processing {
      assert (a + b)[1..] == a[1..] + b;
      FeedReadSplit(Feed(rx, a[0], size), a[1..], b, size);
    }
  }

  lemma {:induction false} FirstSix(b: Bytes, k: nat, size: nat)
    requires k <= 6 && k <= |b| && size >= 7
    ensures FeedRead(EMPTY, b[..k], size) == Rx(b[..k], None, false)
  {
    if k > 0 {
      FirstSix(b, k - 1, size);
      assert b[..k] == b[..k - 1] + [b[k - 1]];
      FeedReadSplit(EMPTY, b[..k - 1], [b[k - 1]], size);
      FeedOne(Rx(b[..k - 1], None, false), b[k - 1], size);
    }
  }

  // ---- valid frames ----

  predicate Frame(f: Bytes, size: nat) { 7 <= |f| <= size && Ng32(f) == |f| }

  /** The accumulator with the first k bytes of a frame in it. */
  function Partial(f: Bytes, k: nat): Rx
    requires k <= |f|
  {
    Rx(f[..k], if k >= 7 then Some(|f|) else None, k >= 7 && k == |f|)
  }

  lemma FeedPartial(f: Bytes, k: nat, size: nat)
    requires Frame(f, size) && k < |f|
    ensures !Partial(f, k).processing && Feed(Partial(f, k), f[k], size) == Partial(f, k + 1)
  {
    assert f[..k] + [f[k]] == f[..k + 1];
    assert k + 1 >= 7 ==> Ng32(f[..k + 1]) == Ng32(f);
  }

  lemma {:induction false} FeedFrame(f: Bytes, k: nat, bytes: Bytes, extra: Bytes, size: nat)
    requires Frame(f, size) && k + |bytes| <= |f| && bytes == f[k..k + |bytes|]
    requires extra != [] ==> k + |bytes| == |f|
    ensures FeedRead(Partial(f, k), bytes + extra, size) == Partial(f, k + |bytes|)
    decreases |bytes|
  {
    if bytes == [] {
      assert bytes + extra == extra;
    } else {
      FeedPartial(f, k, size);
      hide Feed, Partial;
      assert bytes[0] == f[k];
      assert (bytes + extra)[1..] == bytes[1..] + extra;
      FeedFrame(f, k + 1, bytes[1..], extra, size);
    }
  }

  function Join(parts: seq<Bytes>): Bytes {
    if parts == [] then [] else parts[0] + Join(parts[1..])
  }

  function Reads(parts: seq<Bytes>): (es: seq<Event>)
    ensures |es| == |parts|
  {
    if parts == [] then [] else [Read(parts[0])] + Reads(parts[1..])
  }

  /** Each frame in however many reads, its hand-off before the next frame's first byte. */
  function Session(frames: seq<seq<Bytes>>): seq<Event> {
    if frames == [] then [] else Reads(frames[0]) + [HandOff] + Session(frames[1..])
  }

  function Joined(frames: seq<seq<Bytes>>): seq<Bytes> {
    if frames == [] then [] else [Join(frames[0])] + Joined(frames[1..])
  }

  lemma DeliveredAfterRead(rx: Rx, bytes: Bytes, rest: seq<Event>, size: nat)
    ensures Delivered(rx, [Read(bytes)] + rest, size) == Delivered(FeedRead(rx, bytes, size), rest, size)
  {
    hide FeedRead;
    assert ([Read(bytes)] + rest)[1..] == rest;
  }

  lemma FirstPart(f: Bytes, k: nat, parts: seq<Bytes>)
    requires k <= |f| && parts != [] && Join(parts) == f[k..]
    ensures var n := |parts[0]|; k + n <= |f| && parts[0] == f[k..k + n] && Join(parts[1..]) == f[k + n..]
  {
    var n := |parts[0]|;
    var rest := Join(parts[1..]);
    assert parts[0] + rest == f[k..];
    assert parts[0] == (parts[0] + rest)[..n] && rest == (parts[0] + rest)[n..];
    assert f[k..][..n] == f[k..k + n] && f[k..][n..] == f[k + n..];
  }

  lemma {:induction false} ReadsFillFrame(f: Bytes, k: nat, parts: seq<Bytes>, rest: seq<Event>, size: nat)
    requires Frame(f, size) && k <= |f| && Join(parts) == f[k..]
    ensures Delivered(Partial(f, k), Reads(parts) + rest, size) == Delivered(Partial(f, |f|), rest, size)
    decreases |parts|
  {
    if parts == [] {
      assert k == |f| && Reads(parts) + rest == rest;
    } else {
      var n := |parts[0]|;
      FirstPart(f, k, parts);
      FeedFrame(f, k, parts[0], [], size);
      hide Feed, FeedRead, Partial, Delivered, Join, Frame;
      assert parts[0] + [] == parts[0];
      assert Reads(parts) + rest == [Read(parts[0])] + (Reads(parts[1..]) + rest);
      DeliveredAfterRead(Partial(f, k), parts[0], Reads(parts[1..]) + rest, size);
      ReadsFillFrame(f, k + n, parts[1..], rest, size);
    }
  }

  /** For every sequence of valid frames, every way of splitting them into reads that end where a frame
      ends, and hand-off between frames, exactly those frames are delivered. */
  lemma {:induction false} FramesAreDelivered(frames: seq<seq<Bytes>>, size: nat)
    requires forall p | p in frames :: Frame(Join(p), size)
    ensures Delivered(EMPTY, Session(frames), size) == Joined(frames)
  {
    if frames != [] {
      var f, rest := Join(frames[0]), Session(frames[1..]);
      assert EMPTY == Partial(f, 0) && f[0..] == f;
      ReadsFillFrame(f, 0, frames[0], [HandOff] + rest, size);
      assert Session(frames) == Reads(frames[0]) + ([HandOff] + rest);
      assert f[..|f|] == f && ([HandOff] + rest)[1..] == rest;
      FramesAreDelivered(frames[1..], size);
    }
  }

  /** Why the reads must not cross a frame's end: what follows it in the same read leaves no trace, so a
      next frame that begins there is never delivered whole. */
  lemma CrossingReadLosesTail(f: Bytes, k: nat, next: Bytes, size: nat)
    requires Frame(f, size) && k <= |f|
    ensures FeedRead(Partial(f, k), f[k..] + next, size) == FeedRead(Partial(f, k), f[k..], size) == Partial(f, |f|)
  {
    FeedFrame(f, k, f[k..], next, size);
    FeedFrame(f, k, f[k..], [], size);
    assert f[k..] + [] == f[k..];
  }

  // ---- exactly when ----

  /** All bytes read along a run. */
  function Fed(events: seq<Event>): Bytes {
    if events == [] then [] else (if events[0].Read? then events[0].bytes else []) + Fed(events[1..])
  }

  function Flat(frames: seq<Bytes>): Bytes {
    if frames == [] then [] else frames[0] + Flat(frames[1..])
  }

  /** With k bytes of the first frame in: no read reaches across the end of a frame, and every finished frame
      is handed off before another byte arrives, the last one by the end of the run. */
  predicate Clean(frames: seq<Bytes>, k: nat, events: seq<Event>)
    requires frames != [] ==> k <= |frames[0]|
    decreases |events|
  {
    if events == [] then frames == []
    else match events[0]
      case Read(b) =>
        if b == [] then Clean(frames, k, events[1..])
        else frames != [] && k < |frames[0]| && k + |b| <= |frames[0]| && Clean(frames, k + |b|, events[1..])
      case HandOff =>
        if frames != [] && k == |frames[0]| then Clean(frames[1..], 0, events[1..])
        else Clean(frames, k, events[1..])
  }

  lemma {:induction false} FeedReadGrows(rx: Rx, bytes: Bytes, size: nat)
    ensures |FeedRead(rx, bytes, size).buf| <= |rx.buf| + |bytes|
    ensures rx.processing ==> FeedRead(rx, bytes, size) == rx
    decreases |bytes|
  {
    if !rx.processing && bytes != [] {
      FeedReadGrows(Feed(rx, bytes[0], size), bytes[1..], size);
    }
  }

  /** What is handed up was buffered or read: no byte is made up, so what is dropped is missed. */
  lemma {:induction false} DeliveredIsFed(rx: Rx, events: seq<Event>, size: nat)
    ensures |Flat(Delivered(rx, events, size))| <= |rx.buf| + |Fed(events)|
    decreases |events|
  {
    if events != [] {
      hide FeedRead;
      if events[0].Read? {
        FeedReadGrows(rx, events[0].bytes, size);
      }
      DeliveredIsFed(Step(rx, events[0], size), events[1..], size);
      if events[0].HandOff? && rx.processing {
        var rest := Delivered(EMPTY, events[1..], size);
        assert ([rx.buf] + rest)[1..] == rest;
      } else {
        assert [] + Delivered(Step(rx, events[0], size), events[1..], size)
            == Delivered(Step(rx, events[0], size), events[1..], size);
      }
    }
  }

  /** The accumulator between frames, or with k bytes of the first one in. */
  function At(frames: seq<Bytes>, k: nat): Rx
    requires frames != [] ==> k <= |frames[0]|
  {
    if frames == [] then EMPTY else Partial(frames[0], k)
  }

  /** The bytes still to come. */
  function Coming(frames: seq<Bytes>, k: nat): Bytes
    requires frames != [] ==> k <= |frames[0]|
  {
    if frames == [] then [] else frames[0][k..] + Flat(frames[1..])
  }

  /** A read that brings a byte past the end of a frame, finished before it or by it, loses that byte for good. */
  lemma LostByteIsMissed(frames: seq<Bytes>, k: nat, b: Bytes, rest: seq<Event>, size: nat)
    requires frames != [] && Frame(frames[0], size) && k <= |frames[0]| && |b| > |frames[0]| - k
    requires Coming(frames, k) == b + Fed(rest)
    ensures Delivered(At(frames, k), [Read(b)] + rest, size) != frames
  {
    var f := frames[0];
    assert b[..|f| - k] == (b + Fed(rest))[..|f| - k] == f[k..];
    assert b == f[k..] + b[|f| - k..];
    CrossingReadLosesTail(f, k, b[|f| - k..], size);
    hide FeedRead, Feed, Delivered;
    DeliveredAfterRead(Partial(f, k), b, rest, size);
    DeliveredIsFed(Partial(f, |f|), rest, size);
    assert |Flat(frames)| == |f| + |Flat(frames[1..])|;
  }

  lemma NothingLeft(frames: seq<Bytes>, k: nat, size: nat)
    requires forall f | f in frames :: Frame(f, size)
    requires if frames == [] then k == 0 else k <= |frames[0]|
    ensures Delivered(At(frames, k), [], size) == [] && Fed([]) == []
  {
  }

  lemma EmptyRead(rx: Rx, rest: seq<Event>, size: nat)
    ensures Delivered(rx, [Read([])] + rest, size) == Delivered(rx, rest, size)
  {
    DeliveredAfterRead(rx, [], rest, size);
    hide Delivered, Feed;
    assert FeedRead(rx, [], size) == rx;
  }

  lemma FedMore(events: seq<Event>)
    requires events != []
    ensures events[0].HandOff? ==> Fed(events) == Fed(events[1..])
    ensures events[0].Read? ==> Fed(events) == events[0].bytes + Fed(events[1..])
                                && events == [Read(events[0].bytes)] + events[1..]
  {
  }

  lemma HandOffWaits(frames: seq<Bytes>, k: nat, rest: seq<Event>, size: nat)
    requires (frames != [] ==> k < |frames[0]|) && (frames == [] ==> k == 0)
    ensures Delivered(At(frames, k), [HandOff] + rest, size) == Delivered(At(frames, k), rest, size)
  {
    assert !At(frames, k).processing && ([HandOff] + rest)[1..] == rest;
    hide Feed, FeedRead, At;
    assert [] + Delivered(At(frames, k), rest, size) == Delivered(At(frames, k), rest, size);
  }

  lemma HandOffDelivers(f: Bytes, rest: seq<Event>, size: nat)
    requires Frame(f, size)
    ensures Delivered(Partial(f, |f|), [HandOff] + rest, size) == [f] + Delivered(EMPTY, rest, size)
  {
    assert f[..|f|] == f && ([HandOff] + rest)[1..] == rest;
    hide Feed, FeedRead;
  }

  lemma NextFrame(frames: seq<Bytes>)
    requires frames != []
    ensures At(frames[1..], 0) == EMPTY && Coming(frames[1..], 0) == Flat(frames[1..]) == Coming(frames, |frames[0]|)
    ensures [frames[0]] + frames[1..] == frames
  {
    var later := frames[1..];
    assert later != [] ==> later[0][0..] == later[0] && later[0][..0] == [];
    assert frames[0][|frames[0]|..] == [];
  }

  lemma ReadExactly(frames: seq<Bytes>, k: nat, b: Bytes, rest: seq<Event>, size: nat)
    requires frames != [] && Frame(frames[0], size) && k + |b| <= |frames[0]|
    requires Coming(frames, k) == b + Fed(rest)
    ensures Delivered(At(frames, k), [Read(b)] + rest, size) == Delivered(At(frames, k + |b|), rest, size)
    ensures Coming(frames, k + |b|) == Fed(rest)
  {
    var f := frames[0];
    SplitComing(f, k, b, Fed(rest), Flat(frames[1..]));
    FeedFrame(f, k, b, [], size);
    hide FeedRead, Feed, Delivered, Flat, Fed, Frame;
    assert b + [] == b;
    DeliveredAfterRead(Partial(f, k), b, rest, size);
  }

  lemma SplitComing(f: Bytes, k: nat, b: Bytes, fed: Bytes, later: Bytes)
    requires k + |b| <= |f| && f[k..] + later == b + fed
    ensures b == f[k..k + |b|] && fed == f[k + |b|..] + later
  {
    assert b == (b + fed)[..|b|] == f[k..][..|b|];
    assert fed == (b + fed)[|b|..] == f[k..][|b|..] + later;
  }

  /** For every sequence of valid frames and every run that reads exactly their bytes, in whatever reads and
      with hand-offs wherever they fall: the messages delivered are the frames sent if and only if no read
      reaches across a frame's end and each frame is handed off before the next byte. */
  lemma {:induction false} DeliveredExactly(frames: seq<Bytes>, k: nat, events: seq<Event>, size: nat)
    requires forall f | f in frames :: Frame(f, size)
    requires if frames == [] then k == 0 else k <= |frames[0]|
    requires Fed(events) == Coming(frames, k)
    ensures Delivered(At(frames, k), events, size) == frames <==> Clean(frames, k, events)
    decreases |events|
  {
    if events == [] {
      NothingLeft(frames, k, size);
    } else {
      FedMore(events);
      assert frames != [] ==> frames[0] in frames;
      hide Feed, FeedRead, Delivered, Partial, Flat, Fed, Frame;
      var rest := events[1..];
      if events[0].HandOff? {
        assert events == [HandOff] + rest;
        if frames != [] && k == |frames[0]| {
          HandOffDelivers(frames[0], rest, size);
          NextFrame(frames);
          DeliveredExactly(frames[1..], 0, rest, size);
        } else {
          HandOffWaits(frames, k, rest, size);
          DeliveredExactly(frames, k, rest, size);
        }
      } else {
        var b := events[0].bytes;
        if b == [] {
          EmptyRead(At(frames, k), rest, size);
          DeliveredExactly(frames, k, rest, size);
        } else if |b| > |frames[0]| - k {
          LostByteIsMissed(frames, k, b, rest, size);
        } else {
          ReadExactly(frames, k, b, rest, size);
          DeliveredExactly(frames, k + |b|, rest, size);
        }
      }
    }
  }

  lemma BootedEmpty(frames: seq<Bytes>)
    ensures At(frames, 0) == EMPTY && Coming(frames, 0) == Flat(frames)
  {
    if frames != [] {
      assert frames[0][0..] == frames[0] && frames[0][..0] == [];
    }
  }

  /** The same from an empty accumulator. */
  lemma RunDeliversExactly(frames: seq<Bytes>, events: seq<Event>, size: nat)
    requires (forall f | f in frames :: Frame(f, size)) && Fed(events) == Flat(frames)
    ensures Delivered(EMPTY, events, size) == frames <==> Clean(frames, 0, events)
  {
    BootedEmpty(frames);
    DeliveredExactly(frames, 0, events, size);
  }

  // ---- in memory ----

  class MeshRx {
    const rxBuf: array<byte>     // filled by the interrupt
    const rxMsg: array<byte>     // what the client callback reads
    var len: nat
    var expected: nat
    var haveHdr: bool
    var processing: bool
    var procLen: nat

    ghost function View(): Rx
      reads this, rxBuf
      requires len <= rxBuf.Length
    {
      Rx(rxBuf[..len], if haveHdr then Some(expected) else None, processing)
    }

    ghost predicate Valid()
      reads this, rxBuf
    {
      && 7 <= rxBuf.Length == rxMsg.Length && rxBuf != rxMsg
      && len <= rxBuf.Length && Sound(View(), rxBuf.Length)
      && (processing ==> procLen == len)
    }

    constructor (size: nat)
      requires size >= 7
      ensures Valid() && View() == EMPTY && rxBuf.Length == size
    {
      rxBuf := new byte[size](_ => 0);
      rxMsg := new byte[size](_ => 0);
      len, expected, haveHdr, processing, procLen := 0, 0, false, false, 0;
    }

    /** mesh_uart_isr, one FIFO read. */
    method Isr(b: Bytes)
      requires Valid()
      modifies this, rxBuf
      ensures Valid() && View() == FeedRead(old(View()), b, rxBuf.Length)
    {
      hide Feed;
      if processing {
        return;
      }
      for i := 0 to |b|
        invariant Valid() && !processing
        invariant FeedRead(View(), b[i..], rxBuf.Length) == FeedRead(old(View()), b, rxBuf.Length)
      {
        assert b[i..][1..] == b[i + 1..];
        FeedReadSound(View(), [b[i]], rxBuf.Length);
        FeedOne(View(), b[i], rxBuf.Length);
        Accept(b[i]);
        if processing {
          break;
        }
      }
    }

    /** The body of its byte loop, as written for any accumulator state. */
    method Accept(b: byte)
      requires 7 <= rxBuf.Length && len <= rxBuf.Length && !processing
      modifies this, rxBuf
      ensures len <= rxBuf.Length && View() == Feed(old(View()), b, rxBuf.Length)
      ensures processing ==> haveHdr && procLen == expected
    {
      if len >= rxBuf.Length {
        len := 0;
        haveHdr := false;
      }
      ghost var before := rxBuf[..len];
      rxBuf[len] := b;
      len := len + 1;
      assert rxBuf[..len] == before + [b];
      if !haveHdr && len >= 7 {
        expected := Ng32(rxBuf[..len]);
        if expected < 7 || expected > rxBuf.Length {
          len := 0;
          assert rxBuf[..len] == [];
          return;
        }
        haveHdr := true;
      }
      if haveHdr && len >= expected {
        procLen := expected;
        processing := true;
      }
    }

    /** mesh_rx_work_handler: copies the message out, then frees the accumulator before delivering. */
    method WorkHandler() returns (m: Bytes)
      requires Valid() && processing
      modifies this, rxMsg
      ensures Valid() && View() == EMPTY == Step(old(View()), HandOff, rxBuf.Length)
      ensures m == old(View()).buf == rxMsg[..|m|]
    {
      var n := procLen;
      forall i | 0 <= i < n {
        rxMsg[i] := rxBuf[i];
      }
      len := 0;
      haveHdr := false;
      expected := 0;
      processing := false;
      m := rxMsg[..n];
    }
  }
}
