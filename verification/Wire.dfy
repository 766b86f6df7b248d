/** 9P2000 messages as the mesh clients build them and the mesh server recognizes them:
    little-endian codecs, the T-message builders (dect_mesh/src/aether_net.c, tools/aether_conv.c)
    and the shape test that separates 9P from chat datagrams (dect_mesh/src/aether_9p_mesh.c). */
module Wire {
  type byte = b: int | 0 <= b < 0x100
  type u16 = n: int | 0 <= n < 0x1_0000
  type u32 = n: int | 0 <= n < 0x1_0000_0000
  type u64 = n: int | 0 <= n < 0x1_0000_0000_0000_0000
  type Bytes = seq<byte>

  datatype Option<+T> = None | Some(value: T)

  const NOTAG: u16 := 0xffff
  /** Bytes of a Twrite in front of its data: size, type, tag, fid, offset, count. */
  const TWRITE_HDR := 23

  // ---- little-endian codecs ----

  function Np16(v: u16): (b: Bytes)
    ensures |b| == 2
  {
    [v % 0x100, v / 0x100]
  }

  function Np32(v: u32): (b: Bytes)
    ensures |b| == 4
  {
    [v % 0x100, v / 0x100 % 0x100, v / 0x1_0000 % 0x100, v / 0x100_0000]
  }

  function Np64(v: u64): (b: Bytes)
    ensures |b| == 8
  { Np32(v % 0x1_0000_0000) + Np32(v / 0x1_0000_0000) }

  function Ng16(b: Bytes): u16
    requires |b| >= 2
  {
    b[0] as int + b[1] as int * 0x100
  }

  function Ng32(b: Bytes): u32
    requires |b| >= 4
  {
    b[0] as int + b[1] as int * 0x100 + b[2] as int * 0x1_0000 + b[3] as int * 0x100_0000
  }

  lemma Ng16OfNp16(v: u16, rest: Bytes)
    ensures Ng16(Np16(v) + rest) == v
    ensures (Np16(v) + rest)[2..] == rest
  {
    assert v == v % 0x100 + 0x100 * (v / 0x100);
  }

  lemma Ng32OfNp32(v: u32, rest: Bytes)
    ensures Ng32(Np32(v) + rest) == v
    ensures (Np32(v) + rest)[4..] == rest
  {
    assert v == v % 0x100 + 0x100 * (v / 0x100);
    assert v / 0x100 == v / 0x100 % 0x100 + 0x100 * (v / 0x1_0000);
    assert v / 0x1_0000 == v / 0x1_0000 % 0x100 + 0x100 * (v / 0x100_0000);
  }

  // ---- the T-messages the in-tree clients build ----

  datatype TMsg =
    | Tversion(msize: u32, version: Bytes)
    | Tattach(tag: u16, fid: u32, afid: u32, uname: Bytes, aname: Bytes)
    | Twalk(tag: u16, fid: u32, newfid: u32, names: seq<Bytes>)
    | Topen(tag: u16, fid: u32, mode: byte)
    | Tread(tag: u16, fid: u32, offset: u64, count: u32)
    | Twrite(tag: u16, fid: u32, offset: u64, data: Bytes)
    | Tclunk(tag: u16, fid: u32)

  function TypeOf(t: TMsg): byte {
    match t
    case Tversion(_, _) => 100
    case Tattach(_, _, _, _, _) => 104
    case Twalk(_, _, _, _) => 110
    case Topen(_, _, _) => 112
    case Tread(_, _, _, _) => 116
    case Twrite(_, _, _, _) => 118
    case Tclunk(_, _) => 120
  }

  function TagOf(t: TMsg): u16 { if t.Tversion? then NOTAG else t.tag }

  /** Every length field of the message can hold the length it has to carry. */
  predicate Encodable(t: TMsg) {
    match t
    case Tversion(_, v) => |v| < 0x1_0000
    case Tattach(_, _, _, u, a) => |u| < 0x1_0000 && |a| < 0x1_0000
    case Twalk(_, _, _, ns) => |ns| < 0x1_0000 && forall n | n in ns :: |n| < 0x1_0000
    case Twrite(_, _, _, d) => |d| < 0xffff_ff00
    case _ => true
  }

  function PutStr(s: Bytes): Bytes
    requires |s| < 0x1_0000
  {
    Np16(|s|) + s
  }

  function PutNames(ns: seq<Bytes>): Bytes
    requires forall n | n in ns :: |n| < 0x1_0000
  {
    if ns == [] then [] else PutStr(ns[0]) + PutNames(ns[1..])
  }

  function Fields(t: TMsg): Bytes
    requires Encodable(t)
  {
    match t
    case Tversion(msize, v) => Np32(msize) + PutStr(v)
    case Tattach(_, fid, afid, u, a) => Np32(fid) + (Np32(afid) + (PutStr(u) + PutStr(a)))
    case Twalk(_, fid, newfid, ns) => Np32(fid) + (Np32(newfid) + (Np16(|ns|) + PutNames(ns)))
    case Topen(_, fid, mode) => Np32(fid) + [mode]
    case Tread(_, fid, offset, count) => Np32(fid) + (Np64(offset) + Np32(count))
    case Twrite(_, fid, offset, d) => Np32(fid) + (Np64(offset) + (Np32(|d|) + d))
    case Tclunk(_, fid) => Np32(fid)
  }

  function FrameSize(t: TMsg): nat
    requires Encodable(t)
  {
    7 + |Fields(t)|
  }

  predicate Frameable(t: TMsg) { Encodable(t) && FrameSize(t) < 0x1_0000_0000 }

  /** size[4] type[1] tag[2] fields, the size stamped over the whole frame. */
  function Encode(t: TMsg): Bytes
    requires Frameable(t)
  {
    Np32(FrameSize(t)) + ([TypeOf(t)] + (Np16(TagOf(t)) + Fields(t)))
  }

  // ---- an independent reading of the format (section 5 of the Plan 9 manual) ----

  function GetStr(b: Bytes): Option<(Bytes, Bytes)> {
    if |b| < 2 || |b| < 2 + Ng16(b) then None else Some((b[2..2 + Ng16(b)], b[2 + Ng16(b)..]))
  }

  function GetNames(b: Bytes, n: nat): Option<seq<Bytes>> {
    if n == 0 then if b == [] then Some([]) else None
    else match GetStr(b)
      case None => None
      case Some((s, rest)) =>
        match GetNames(rest, n - 1)
        case None => None
        case Some(ns) => Some([s] + ns)
  }

  function GetU64(b: Bytes): u64
    requires |b| >= 8
  {
    Ng32(b) + Ng32(b[4..]) * 0x1_0000_0000
  }

  function DecodeFields(ty: byte, tag: u16, b: Bytes): Option<TMsg> {
    if |b| < 4 then None else
    var w, r := Ng32(b), b[4..];
    if ty == 100 then
      match GetStr(r)
      case Some((v, rest)) => if tag == NOTAG && rest == [] then Some(Tversion(w, v)) else None
      case None => None
    else if ty == 104 then
      if |r| < 4 then None else
      match GetStr(r[4..])
      case None => None
      case Some((u, r2)) =>
        match GetStr(r2)
        case Some((a, rest)) => if rest == [] then Some(Tattach(tag, w, Ng32(r), u, a)) else None
        case None => None
    else if ty == 110 then
      if |r| < 6 then None else
      match GetNames(r[4..][2..], Ng16(r[4..]))
      case Some(ns) => Some(Twalk(tag, w, Ng32(r), ns))
      case None => None
    else if ty == 112 then
      if |r| == 1 then Some(Topen(tag, w, r[0])) else None
    else if ty == 116 then
      if |r| == 12 then Some(Tread(tag, w, GetU64(r), Ng32(r[8..]))) else None
    else if ty == 118 then
      if |r| < 12 || Ng32(r[8..]) != |r| - 12 then None
      else Some(Twrite(tag, w, GetU64(r), r[8..][4..]))
    else if ty == 120 then
      if r == [] then Some(Tclunk(tag, w)) else None
    else None
  }

  function Decode(b: Bytes): Option<TMsg> {
    if |b| < 7 || Ng32(b) != |b| then None
    else DecodeFields(b[4], Ng16(b[4..][1..]), b[4..][1..][2..])
  }

  lemma GetPutStr(s: Bytes, rest: Bytes)
    requires |s| < 0x1_0000
    ensures GetStr(PutStr(s) + rest) == Some((s, rest))
  {
    var b := PutStr(s) + rest;
    assert b[..2] == Np16(|s|) && Ng16(b) == |s|;
    assert b[2..2 + |s|] == s && b[2 + |s|..] == rest;
  }

  lemma {:induction false} GetPutNames(ns: seq<Bytes>)
    requires forall n | n in ns :: |n| < 0x1_0000
    ensures GetNames(PutNames(ns), |ns|) == Some(ns)
  {
    if ns != [] {
      GetPutStr(ns[0], PutNames(ns[1..]));
      GetPutNames(ns[1..]);
      assert [ns[0]] + ns[1..] == ns;
    }
  }

  lemma GetPutU64(v: u64, rest: Bytes)
    ensures GetU64(Np64(v) + rest) == v && (Np64(v) + rest)[8..] == rest
  {
    var lo, hi := v % 0x1_0000_0000, v / 0x1_0000_0000;
    assert Np64(v) + rest == Np32(lo) + (Np32(hi) + rest);
    Ng32OfNp32(lo, Np32(hi) + rest);
    Ng32OfNp32(hi, rest);
  }

  lemma DecodeSessionFields(t: TMsg)
    requires Encodable(t) && (t.Tversion? || t.Tattach? || t.Twalk?)
    ensures DecodeFields(TypeOf(t), TagOf(t), Fields(t)) == Some(t)
  {
    hide Np16, Ng16, Np32, Ng32, GetStr, PutStr, GetNames, PutNames;
    match t
    case Tversion(msize, v) =>
      Ng32OfNp32(msize, PutStr(v));
      GetPutStr(v, []);
      assert PutStr(v) + [] == PutStr(v);
    case Tattach(_, fid, afid, u, a) =>
      Ng32OfNp32(fid, Np32(afid) + (PutStr(u) + PutStr(a)));
      Ng32OfNp32(afid, PutStr(u) + PutStr(a));
      GetPutStr(u, PutStr(a));
      GetPutStr(a, []);
      assert PutStr(a) + [] == PutStr(a);
    case Twalk(_, fid, newfid, ns) =>
      Ng32OfNp32(fid, Np32(newfid) + (Np16(|ns|) + PutNames(ns)));
      Ng32OfNp32(newfid, Np16(|ns|) + PutNames(ns));
      Ng16OfNp16(|ns|, PutNames(ns));
      GetPutNames(ns);
  }

  lemma DecodeFileFields(t: TMsg)
    requires Encodable(t) && (t.Topen? || t.Tread? || t.Twrite? || t.Tclunk?)
    ensures DecodeFields(TypeOf(t), TagOf(t), Fields(t)) == Some(t)
  {
    hide Np32, Ng32, GetU64, Np64;
    match t
    case Topen(_, fid, mode) =>
      Ng32OfNp32(fid, [mode]);
    case Tread(_, fid, offset, count) =>
      Ng32OfNp32(fid, Np64(offset) + Np32(count));
      GetPutU64(offset, Np32(count));
      Ng32OfNp32(count, []);
      assert Np32(count) + [] == Np32(count);
    case Twrite(_, fid, offset, d) =>
      Ng32OfNp32(fid, Np64(offset) + (Np32(|d|) + d));
      GetPutU64(offset, Np32(|d|) + d);
      Ng32OfNp32(|d|, d);
    case Tclunk(_, fid) =>
      Ng32OfNp32(fid, []);
      assert Np32(fid) + [] == Np32(fid);
  }

  /** Reading a built frame by the manual's layout gives back every field. */
  lemma DecodeOfEncode(t: TMsg)
    requires Frameable(t)
    ensures Decode(Encode(t)) == Some(t)
  {
    hide Np32, Ng32, Fields, DecodeFields, TypeOf;
    var tail := [TypeOf(t)] + (Np16(TagOf(t)) + Fields(t));
    Ng32OfNp32(FrameSize(t), tail);
    assert Encode(t)[4] == TypeOf(t);
    assert tail[1..] == Np16(TagOf(t)) + Fields(t);
    assert tail[1..][2..] == Fields(t);
    if t.Tversion? || t.Tattach? || t.Twalk? {
      DecodeSessionFields(t);
    } else {
      DecodeFileFields(t);
    }
  }

  // ---- service demux ----

  /** looks_like_9p_t: exact framed length and an even type in Tversion..Twstat. */
  predicate LooksLikeT(b: Bytes, maxPayload: nat) {
    && 7 <= |b| <= maxPayload
    && Ng32(b) == |b|
    && 100 <= b[4] <= 126 && b[4] % 2 == 0
  }

  /** A built request is claimed by the 9P server exactly when it fits one datagram, and a reply (every
      reply's type is odd, Rerror's included), whatever its fields, never is. */
  lemma DemuxSeparates(t: TMsg, reply: Bytes, maxPayload: nat)
    requires Frameable(t)
    requires |reply| >= 7 && reply[4] % 2 == 1
    ensures LooksLikeT(Encode(t), maxPayload) <==> FrameSize(t) <= maxPayload
    ensures !LooksLikeT(reply, maxPayload)
  {
    hide Np32, Ng32, Fields, Encodable;
    var tail := [TypeOf(t)] + (Np16(TagOf(t)) + Fields(t));
    Ng32OfNp32(FrameSize(t), tail);
    assert Encode(t)[4] == TypeOf(t);
  }

  /** Exactly the datagrams that give their own length in their first four bytes and have an even type from
      Tversion to Twstat; so no text is, a printable fourth character alone making a length no datagram has. */
  lemma ClaimedExactly(b: Bytes, maxPayload: nat)
    ensures LooksLikeT(b, maxPayload)
            <==> && 7 <= |b| <= maxPayload
                 && |b| == b[0] as int + 0x100 * (b[1] as int + 0x100 * (b[2] as int + 0x100 * b[3] as int))
                 && b[4] in {100, 102, 104, 106, 108, 110, 112, 114, 116, 118, 120, 122, 124, 126}
    ensures |b| >= 4 && b[3] >= 32 && maxPayload < 0x2000_0000 ==> !LooksLikeT(b, maxPayload)
  {
  }

  // ---- a session ----

  /** How far a session on the peer has got towards dev/<file> open as fid 2: 1 versioned, 2 attached,
      3 walked, 4 opened. A new Tversion starts over; what does not fit is refused. */
  function Advance(stage: nat, m: TMsg, file: Bytes, mode: byte): nat {
    match m
    case Tversion(_, _) => 1
    case Tattach(_, fid, _, _, _) => if stage == 1 && fid == 0 then 2 else stage
    case Twalk(_, fid, newfid, names) =>
      if stage == 2 && fid == 0 && newfid == 2 && names == [DEV, file] then 3 else stage
    case Topen(_, fid, how) => if stage == 3 && fid == 2 && how == mode then 4 else stage
    case Tclunk(_, fid) => if stage >= 3 && fid == 2 then 2 else stage
    case _ => stage
  }

  /** A body written left to right, regrouped the way Encode nests its fields. */
  lemma Regroup(a: Bytes, b: Bytes, c: Bytes, d: Bytes, e: Bytes, f: Bytes)
    ensures a + b + c + d + e + f == a + (b + (c + ((d + e) + f)))
    ensures a + b + c + d + e + f == a + (b + (c + (d + (e + f))))
  {
  }

  lemma PutTwoNames(x: Bytes, y: Bytes)
    requires |x| < 0x1_0000 && |y| < 0x1_0000
    ensures PutNames([x, y]) == PutStr(x) + PutStr(y)
  {
    assert [x, y][1..] == [y] && [y][1..] == [];
    assert PutNames([y]) == PutStr(y) + PutNames([]) == PutStr(y);
  }

  lemma WalkBody(head: Bytes, file: Bytes)
    requires |file| < 0x1_0000
    ensures head + Np16(3) + DEV + Np16(|file|) + file == head + (PutStr(DEV) + PutStr(file))
  {
  }

  lemma TwalkDevFrame(tag: u16, fid: u32, newfid: u32, file: Bytes)
    requires |file| < 0x1_0000
    ensures var t := Twalk(tag, fid, newfid, [DEV, file]);
            && Frameable(t) && FrameSize(t) == 24 + |file|
            && Encode(t) == Np32(24 + |file|)
                            + ([110] + Np16(tag) + Np32(fid) + Np32(newfid) + Np16(2) + (PutStr(DEV) + PutStr(file)))
  {
    PutTwoNames(DEV, file);
    Regroup([110], Np16(tag), Np32(fid), Np32(newfid), Np16(2), PutStr(DEV) + PutStr(file));
  }

  lemma TwriteFrame(tag: u16, fid: u32, offset: u64, data: Bytes)
    requires |data| < 0xffff_ff00
    ensures var t := Twrite(tag, fid, offset, data);
            && Frameable(t)
            && Encode(t) == Np32(TWRITE_HDR + |data|)
                            + ([118] + Np16(tag) + Np32(fid) + Np32(offset % 0x1_0000_0000)
                               + Np32(offset / 0x1_0000_0000) + Np32(|data|) + data)
  {
    hide Np16, Np32;
    var lo, hi := Np32(offset % 0x1_0000_0000), Np32(offset / 0x1_0000_0000);
    Regroup([118], Np16(tag), Np32(fid), lo, hi, Np32(|data|) + data);
    assert [118] + Np16(tag) + Np32(fid) + lo + hi + (Np32(|data|) + data)
        == [118] + Np16(tag) + Np32(fid) + lo + hi + Np32(|data|) + data;
  }

  // ---- the builders, writing into a message buffer with a running index ----

  class MsgBuf {
    const buf: array<byte>
    var o: nat

    constructor (capacity: nat)
      requires capacity >= 7
      ensures Valid() && fresh(buf) && buf.Length == capacity && o == 4
    {
      buf := new byte[capacity](_ => 0);
      o := 4;
    }

    ghost predicate Valid()
      reads this
    {
      4 <= o <= buf.Length
    }

    ghost function Body(): Bytes
      reads this, buf
      requires Valid()
    {
      buf[4..o]
    }

    method PutByte(v: byte)
      requires Valid() && o < buf.Length
      modifies this`o, buf
      ensures Valid() && o == old(o) + 1 && Body() == old(Body()) + [v]
    {
      buf[o] := v;
      o := o + 1;
    }

    method Put16(v: u16)
      requires Valid() && o + 2 <= buf.Length
      modifies this`o, buf
      ensures Valid() && o == old(o) + 2 && Body() == old(Body()) + Np16(v)
    {
      buf[o], buf[o + 1] := v % 0x100, v / 0x100;
      o := o + 2;
    }

    method Put32(v: u32)
      requires Valid() && o + 4 <= buf.Length
      modifies this`o, buf
      ensures Valid() && o == old(o) + 4 && Body() == old(Body()) + Np32(v)
    {
      buf[o], buf[o + 1], buf[o + 2], buf[o + 3] :=
        v % 0x100, v / 0x100 % 0x100, v / 0x1_0000 % 0x100, v / 0x100_0000;
      o := o + 4;
    }

    method PutBytes(data: Bytes)
      requires Valid() && o + |data| <= buf.Length
      modifies this`o, buf
      ensures Valid() && o == old(o) + |data| && Body() == old(Body()) + data
    {
      forall i | 0 <= i < |data| {
        buf[o + i] := data[i];
      }
      o := o + |data|;
    }

    /** Stamps the size over the first four bytes and returns the framed length. */
    method Stamp() returns (len: nat)
      requires Valid() && o < 0x1_0000_0000
      modifies buf
      ensures Valid() && len == o && buf[..o] == Np32(o) + old(Body())
    {
      buf[0], buf[1], buf[2], buf[3] :=
        o % 0x100, o / 0x100 % 0x100, o / 0x1_0000 % 0x100, o / 0x100_0000;
      len := o;
    }

    /** The header every builder starts with: index back to 4, type, tag. */
    method Begin(ty: byte, tag: u16)
      requires buf.Length >= 7
      modifies this`o, buf
      ensures Valid() && o == 7 && Body() == [ty] + Np16(tag)
    {
      o := 4;
      PutByte(ty);
      Put16(tag);
    }

    method BuildTwrite(tag: u16, fid: u32, offset: u64, data: Bytes) returns (len: nat)
      requires TWRITE_HDR + |data| <= buf.Length && |data| < 0xffff_ff00
      modifies this`o, buf
      ensures Valid() && len == o && buf[..len] == Encode(Twrite(tag, fid, offset, data))
    {
      hide Np16, Np32, Encode, MsgBuf.Body;
      Begin(118, tag);
      Put32(fid);
      Put32(offset % 0x1_0000_0000);
      Put32(offset / 0x1_0000_0000);
      Put32(|data|);
      PutBytes(data);
      TwriteFrame(tag, fid, offset, data);
      len := Stamp();
    }

    /** The two-element walk to a peer's dev/<file>. */
    method BuildTwalkDev(tag: u16, fid: u32, newfid: u32, file: Bytes) returns (len: nat)
      requires 24 + |file| <= buf.Length && |file| < 0x1_0000
      modifies this`o, buf
      ensures Valid() && len == o
      ensures var t := Twalk(tag, fid, newfid, [DEV, file]); Frameable(t) && buf[..len] == Encode(t)
    {
      hide Np16, Np32;
      Begin(110, tag);
      Put32(fid);
      Put32(newfid);
      Put16(2);
      Put16(3);
      PutBytes(DEV);
      Put16(|file|);
      PutBytes(file);
      assert Body() == [110] + Np16(tag) + Np32(fid) + Np32(newfid) + Np16(2) + (PutStr(DEV) + PutStr(file)) by {
        WalkBody([110] + Np16(tag) + Np32(fid) + Np32(newfid) + Np16(2), file);
      }
      TwalkDevFrame(tag, fid, newfid, file);
      len := Stamp();
    }

    method BuildTread(tag: u16, fid: u32, offset: u64, count: u32) returns (len: nat)
      requires TWRITE_HDR <= buf.Length
      modifies this`o, buf
      ensures Valid() && len == o && buf[..len] == Encode(Tread(tag, fid, offset, count))
    {
      hide Np16, Np32;
      Begin(116, tag);
      Put32(fid);
      Put32(offset % 0x1_0000_0000);
      Put32(offset / 0x1_0000_0000);
      Put32(count);
      Regroup([116], Np16(tag), Np32(fid), Np32(offset % 0x1_0000_0000), Np32(offset / 0x1_0000_0000), Np32(count));
      len := Stamp();
    }
  }

  /** "dev" */
  const DEV: Bytes := [100, 101, 118]
}
