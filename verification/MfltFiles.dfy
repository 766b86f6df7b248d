/** The telemetry files and the host's walk over them, in their own loops: dev/mflt (gen_mflt) and
    dev/mflt_mesh (gen_mflt_mesh) in dect_mesh/src/aether_9p.c, forward_stream in
    tools/aether_forwarder.c. */
module MfltFiles {
  import opened Wire
  import opened Base64
  import opened Telemetry

  // ---- streams after one another ----

  lemma {:induction false} RenderConcat(a: seq<Token>, b: seq<Token>)
    ensures Render(a + b) == Render(a) + Render(b)
  {
    hide Text;
    if a == [] {
      assert a + b == b;
    } else {
      assert (a + b)[1..] == a[1..] + b;
      RenderConcat(a[1..], b);
    }
  }

  lemma RenderOne(t: Token)
    ensures Render([t]) == Text(t)
  {
    hide Text;
    assert [t][1..] == [];
    assert Render([t]) == Text(t) + "";
  }

  function SerialAfter(tokens: seq<Token>, serial: string): string {
    if tokens == [] then serial
    else SerialAfter(tokens[1..], if tokens[0].Dev? then tokens[0].serial else serial)
  }

  /** No chunk comes before the stream has named its device. */
  predicate NamedFirst(tokens: seq<Token>) {
    tokens == [] || tokens[0].Dev? || ((tokens[0].Chunk? ==> tokens[0].data == []) && NamedFirst(tokens[1..]))
  }

  lemma {:induction false} PairsConcat(a: seq<Token>, b: seq<Token>, serial: string)
    ensures Pairs(a + b, serial) == Pairs(a, serial) + Pairs(b, SerialAfter(a, serial))
  {
    if a == [] {
      assert a + b == b;
    } else {
      assert (a + b)[1..] == a[1..] + b;
      PairsConcat(a[1..], b, if a[0].Dev? then a[0].serial else serial);
    }
  }

  /** A chunk that comes first is posted under whatever name is left over. */
  lemma {:induction false} LeftoverName(b: seq<Token>, serial: string)
    requires serial != ""
    ensures if NamedFirst(b) then Pairs(b, serial) == Pairs(b, "") else |Pairs(b, serial)| > |Pairs(b, "")|
    ensures |Pairs(b, serial)| >= |Pairs(b, "")|
  {
    if b != [] && !b[0].Dev? {
      LeftoverName(b[1..], serial);
    }
  }

  /** One stream after another means what the two mean by themselves exactly when the second names its
      device before its first chunk (a node without a mesh context does not), or the first left no name. */
  lemma AttributionSurvivesConcat(a: seq<Token>, b: seq<Token>)
    requires forall t | t in a + b :: Printable(t)
    ensures Parse(Render(a) + Render(b), "") == Pairs(a, "") + Pairs(b, "")
            <==> NamedFirst(b) || SerialAfter(a, "") == ""
  {
    hide Parse, Printable, Pairs;
    var serial := SerialAfter(a, "");
    RenderConcat(a, b);
    ParseOfRender(a + b, "");
    PairsConcat(a, b, "");
    if serial != "" {
      LeftoverName(b, serial);
    }
  }

  // ---- dev/mflt ----

  function Chunks(queue: seq<Bytes>): seq<Token> {
    if queue == [] then [] else Chunks(queue[..|queue| - 1]) + [Chunk(queue[|queue| - 1])]
  }

  /** Room gen_mflt insists on before it takes a chunk out of the packetizer. */
  const LINE_ROOM := 270
  const CHUNK_MAX := 192

  method PutText(buf: array<char>, at: nat, s: string)
    requires at + |s| <= buf.Length
    modifies buf
    ensures buf[..at + |s|] == old(buf[..at]) + s
  {
    forall i | 0 <= i < |s| {
      buf[at + i] := s[i];
    }
  }

  method PutChunk(buf: array<char>, at: nat, c: Bytes) returns (end: nat)
    requires |c| <= CHUNK_MAX && at + LINE_ROOM <= buf.Length
    modifies buf
    ensures end <= buf.Length && buf[..end] == old(buf[..at]) + Text(Chunk(c))
  {
    hide Enc;
    ghost var before := buf[..at];
    PutText(buf, at, MC_MARK);
    var o := B64Enc(c, buf, at + 3);
    assert buf[..at + 3 + o] == before + MC_MARK + Enc(c);
    PutText(buf, at + 3 + o, ":" + "\n");
    end := at + 3 + o + 2;
    assert before + MC_MARK + Enc(c) + (":" + "\n") == before + (MC_MARK + (Enc(c) + (":" + "\n")));
  }

  lemma ChunkText(c: Bytes)
    requires |c| <= CHUNK_MAX
    ensures |Text(Chunk(c))| <= 261
  {
  }

  /** How many chunks go out in one read: in order, while a line of any chunk would still fit. */
  function Takes(queue: seq<Bytes>, used: nat, size: nat): (n: nat)
    ensures n <= |queue|
  {
    if queue == [] || used + 270 > size then 0
    else 1 + Takes(queue[1..], used + |Text(Chunk(queue[0]))|, size)
  }

  /** What one read of a named node's file brings, and how many chunks it takes out of the queue. */
  function Served(serial: string, queue: seq<Bytes>, offset: nat, size: nat): (r: (string, nat))
    ensures r.1 <= |queue|
  {
    if offset > 0 || queue == [] then ("", 0)
    else
      var n := Takes(queue, |Render([Dev(serial)])|, size);
      (Render([Dev(serial)] + Chunks(queue[..n])), n)
  }

  class Node {
    const serial: Option<string>     // None without a mesh context
    var queue: seq<Bytes>            // the packetizer's pending chunks

    ghost predicate Valid()
      reads this
    {
      (serial.Some? ==> Printable(Dev(serial.value))) && forall c | c in queue :: |c| <= CHUNK_MAX
    }

    constructor (serial: Option<string>, queue: seq<Bytes>)
      requires serial.Some? ==> Printable(Dev(serial.value))
      requires forall c | c in queue :: |c| <= CHUNK_MAX
      ensures Valid() && this.queue == queue && this.serial == serial
    {
      this.serial, this.queue := serial, queue;
    }

    function Header(): seq<Token> {
      if serial.Some? then [Dev(serial.value)] else []
    }

    /** gen_mflt. What is printed leaves the queue and what is not printed stays, in order, so over any reads
        each chunk is printed at most once; the text is the device line and whole chunk lines. Only a
        buffer that cannot hold the device line gets a count past its end. */
    method GenMflt(buf: array<char>, offset: nat) returns (total: nat, ghost taken: nat)
      requires Valid()
      modifies this`queue, buf
      ensures Valid() && taken <= |old(queue)| && queue == old(queue)[taken..]
      ensures offset > 0 || old(queue) == [] ==> total == 0 && taken == 0
      ensures offset == 0 && old(queue) != [] ==>
                if |Render(Header())| < buf.Length || serial.None?
                then && total <= buf.Length && buf[..total] == Render(Header() + Chunks(old(queue)[..taken]))
                     && (queue == [] || total + 270 > buf.Length)
                     && (|Render(Header())| + 270 <= buf.Length ==> taken > 0)
                     && taken == Takes(old(queue), |Render(Header())|, buf.Length)
                else total == |Render(Header())| >= buf.Length && taken == 0
      ensures serial.Some? && |Render(Header())| < buf.Length ==>
                total <= buf.Length && (buf[..total], taken) == Served(serial.value, old(queue), offset, buf.Length)
    {
      hide Text, Enc, Printable, Render, Chunks, Takes;
      total, taken := 0, 0;
      assert queue[0..] == queue;
      if offset > 0 || queue == [] {
        return;
      }
      ghost var all := queue;
      if serial.Some? {
        var line := Text(Dev(serial.value));
        RenderOne(Dev(serial.value));
        total := |line|;
        if |line| >= buf.Length {
          PutText(buf, 0, if buf.Length > 0 then line[..buf.Length - 1] else "");
          return;
        }
        PutText(buf, 0, line);
      } else {
        RenderNone();
      }
      total, taken := PrintChunks(buf, total, Header());
    }

    /** Its loop: chunk lines behind what is printed already, until the queue is empty or a line might not fit. */
    method PrintChunks(buf: array<char>, at: nat, ghost header: seq<Token>) returns (total: nat, ghost taken: nat)
      requires Valid() && at <= buf.Length && buf[..at] == Render(header)
      modifies this`queue, buf
      ensures Valid() && taken == Takes(old(queue), at, buf.Length) && queue == old(queue)[taken..]
      ensures total <= buf.Length && buf[..total] == Render(header + Chunks(old(queue)[..taken]))
      ensures queue == [] || total + 270 > buf.Length
      ensures old(queue) != [] && at + 270 <= buf.Length ==> taken > 0
    {
      NoChunks();
      hide Text, Enc, Printable, Render, Chunks;
      ghost var all := queue;
      total, taken := at, 0;
      assert all[..0] == [] && header + [] == header && all[0..] == all;
      while queue != []
        invariant taken <= |all| && queue == all[taken..] && Valid()
        invariant total <= buf.Length && buf[..total] == Render(header + Chunks(all[..taken]))
        invariant taken + Takes(queue, total, buf.Length) == Takes(all, at, buf.Length)
        decreases |queue|
      {
        if total + LINE_ROOM > buf.Length {
          break;
        }
        var c := queue[0];
        queue := queue[1..];
        PrintedOne(header, all, taken);
        total := PutChunk(buf, total, c);
        taken := taken + 1;
      }
    }
  }

  lemma NoChunks()
    ensures Chunks([]) == []
  {
  }

  lemma RenderNone()
    ensures Render([]) == ""
  {
  }

  lemma PrintedOne(header: seq<Token>, all: seq<Bytes>, n: nat)
    requires n < |all|
    ensures Render(header + Chunks(all[..n + 1])) == Render(header + Chunks(all[..n])) + Text(Chunk(all[n]))
  {
    hide Text, Render;
    assert all[..n + 1][..n] == all[..n];
    assert header + Chunks(all[..n + 1]) == header + Chunks(all[..n]) + [Chunk(all[n])];
    RenderConcat(header + Chunks(all[..n]), [Chunk(all[n])]);
    RenderOne(Chunk(all[n]));
  }

  // ---- the host ----

  /** Its search for the next token: which kind, and where its body begins and ends. */
  method FindToken(text: string, p: nat) returns (isDev: Option<bool>, b: nat, e: nat)
    requires p <= |text|
    ensures isDev.None? ==> NextToken(text[p..]) == End
    ensures isDev.Some? ==>
              && p < b <= e < |text|
              && NextToken(text[p..]) == if isDev.value then DevToken(text[b..e], text[e + 1..])
                                         else McToken(text[b..e], text[e + 1..])
  {
    hide Find, Body;
    var d, m := Find(text[p..], DEV_MARK), Find(text[p..], MC_MARK);
    isDev, b, e := None, 0, 0;
    if Before(m, d) {
      isDev, b := Some(false), m.value + 3;
    } else if d.Some? {
      isDev, b := Some(true), d.value + 4;
    } else {
      return;
    }
    var end := Find(text[p + b..], ":");
    BodyAt(text, p, b, isDev.value);
    if end.None? {
      isDev := None;
    } else {
      b := p + b;
      e := b + end.value;
    }
  }

  lemma BodyAt(text: string, p: nat, at: nat, isDev: bool)
    requires p + at <= |text|
    ensures Body(text[p..], at, isDev)
         == match Find(text[p + at..], ":")
            case None => End
            case Some(n) => if isDev then DevToken(text[p + at..p + at + n], text[p + at + n + 1..])
                            else McToken(text[p + at..p + at + n], text[p + at + n + 1..])
  {
    hide Find;
    var b := p + at;
    assert text[p..][at..] == text[b..];
    if n: nat :| Find(text[b..], ":") == Some(n) {
      assert text[b..][..n] == text[b..b + n] && text[b..][n + 1..] == text[b + n + 1..];
    }
  }

  method PostChunk(serial: string, body: string, raw: array<byte>) returns (posts: seq<Post>)
    requires raw.Length == RAW_MAX
    modifies raw
    ensures posts == Emit(serial, body)
  {
    hide Dec;
    posts := [];
    if serial != "" {
      var rl := B64Dec(body, raw);
      assert Dec(body)[..rl] == Clip(Dec(body), RAW_MAX);
      if rl > 0 {
        posts := [(serial, raw[..rl])];
      }
    }
  }

  lemma InOrder(a: seq<Post>, b: seq<Post>, c: seq<Post>)
    ensures a + (b + c) == a + b + c
  {
  }

  /** forward_stream, with every POST accepted. */
  method ForwardStream(text: string) returns (posts: seq<Post>)
    ensures posts == Parse(text, "")
  {
    hide NextToken, Dec, Emit;
    var raw := new byte[RAW_MAX];
    var serial := "";
    var p := 0;
    posts := [];
    assert text[0..] == text;
    while p < |text|
      invariant p <= |text| && posts + Parse(text[p..], serial) == Parse(text, "")
    {
      var isDev, b, e := FindToken(text, p);
      if isDev.None? {
        return;
      }
      if isDev.value {
        serial := Clip(text[b..e], SERIAL_MAX);
      } else {
        var more := PostChunk(serial, text[b..e], raw);
        InOrder(posts, more, Parse(text[e + 1..], serial));
        posts := posts + more;
      }
      p := e + 1;
    }
    ParseNothing(serial);
    assert text[p..] == "";
  }
}
