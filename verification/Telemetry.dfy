/** The telemetry stream as printer and parser: a node's Memfault chunks as DEV:/MC: lines, read
    destructively (gen_mflt) and concatenated across peers (gen_mflt_mesh, dect_mesh/src/aether_9p.c),
    against the host's token walk that posts each chunk to the device it belongs to (forward_stream,
    tools/aether_forwarder.c). Text is what a C string holds: no NUL. */
module Telemetry {
  import opened Wire
  import opened Base64

  const DEV_MARK := "DEV:"
  const MC_MARK := "MC:"

  /** strstr. */
  function Find(text: string, pat: string): (i: Option<nat>)
    ensures i.Some? ==> i.value + |pat| <= |text|
    decreases |text|
  {
    if |text| < |pat| then None
    else if text[..|pat|] == pat then Some(0)
    else if text == "" then None
    else match Find(text[1..], pat)
      case None => None
      case Some(k) => Some(k + 1)
  }

  predicate Before(m: Option<nat>, d: Option<nat>) { m.Some? && (d.None? || m.value < d.value) }

  type Post = (string, Bytes)

  const SERIAL_MAX := 39
  const RAW_MAX := 512

  function Clip<T>(s: seq<T>, n: nat): seq<T> { if |s| > n then s[..n] else s }

  /** What one MC token is worth. */
  function Emit(serial: string, body: string): seq<Post> {
    var raw := Clip(Dec(body), RAW_MAX);
    if serial != "" && raw != [] then [(serial, raw)] else []
  }

  datatype Scan = End | DevToken(body: string, rest: string) | McToken(body: string, rest: string)

  /** The body from an index to its colon. */
  function Body(text: string, at: nat, isDev: bool): (n: Scan)
    requires at <= |text|
    ensures !n.End? ==> |n.rest| < |text| - at
  {
    var b := text[at..];
    match Find(b, ":")
    case None => End
    case Some(e) => if isDev then DevToken(b[..e], b[e + 1..]) else McToken(b[..e], b[e + 1..])
  }

  /** Whichever token starts first, if its body is finished. */
  function NextToken(text: string): (n: Scan)
    ensures !n.End? ==> |n.rest| < |text|
  {
    var d, m := Find(text, DEV_MARK), Find(text, MC_MARK);
    if Before(m, d) then Body(text, m.value + 3, false)
    else if d.Some? then Body(text, d.value + 4, true)
    else End
  }

  /** The posts a text gives rise to, the device named so far being `serial`. */
  function Parse(text: string, serial: string): seq<Post>
    decreases |text|
  {
    match NextToken(text)
    case End => []
    case McToken(body, rest) => Emit(serial, body) + Parse(rest, serial)
    case DevToken(body, rest) => Parse(rest, Clip(body, SERIAL_MAX))
  }

  // ---- truncation, for any text at all ----

  lemma {:induction false} FindPrefix(text: string, k: nat, pat: string)
    requires k <= |text| && pat != ""
    ensures var i := Find(text, pat);
            Find(text[..k], pat) == if i.Some? && i.value + |pat| <= k then i else None
    decreases |text|
  {
    if k < |pat| {
    } else if text[..|pat|] == pat {
      assert text[..k][..|pat|] == text[..|pat|];
    } else {
      assert text[..k][..|pat|] == text[..|pat|];
      assert text[..k][1..] == text[1..][..k - 1];
      FindPrefix(text[1..], k - 1, pat);
    }
  }

  /** What is left of a scan when the text is cut with `left` characters after its token. */
  function CutScan(n: Scan, left: int): Scan {
    if n.End? || left < 0 || left > |n.rest| then End else n.(rest := n.rest[..left])
  }

  lemma BodyPrefix(text: string, k: nat, at: nat, isDev: bool)
    requires at <= k <= |text|
    ensures var n := Body(text, at, isDev);
            Body(text[..k], at, isDev) == if n.End? then End else CutScan(n, |n.rest| - (|text| - k))
  {
    hide Find;
    var b, c := text[at..], text[..k][at..];
    assert c == b[..k - at];
    FindPrefix(b, k - at, ":");
    var e := Find(b, ":");
    if e.Some? && e.value + 1 <= k - at {
      assert c[..e.value] == b[..e.value];
      assert c[e.value + 1..] == b[e.value + 1..][..k - at - e.value - 1];
    }
  }

  lemma NextPrefix(text: string, k: nat)
    requires k <= |text|
    ensures var n := NextToken(text);
            NextToken(text[..k]) == if n.End? then End else CutScan(n, |n.rest| - (|text| - k))
  {
    hide Find, Body;
    var d, m := Find(text, DEV_MARK), Find(text, MC_MARK);
    FindPrefix(text, k, DEV_MARK);
    FindPrefix(text, k, MC_MARK);
    if Before(m, d) {
      if m.value + 3 <= k {
        BodyPrefix(text, k, m.value + 3, false);
      }
    } else if d.Some? && d.value + 4 <= k {
      BodyPrefix(text, k, d.value + 4, true);
    }
  }

  /** Cut anywhere, a text yields only posts of the whole text, in order, from its beginning: no partial
      chunk and none under another name. */
  lemma {:induction false} ParsePrefix(text: string, k: nat, serial: string)
    requires k <= |text|
    ensures Parse(text[..k], serial) <= Parse(text, serial)
    decreases |text|
  {
    hide NextToken, Emit, Clip;
    NextPrefix(text, k);
    var n := NextToken(text);
    if !n.End? && |n.rest| >= |text| - k {
      ParsePrefix(n.rest, |n.rest| - (|text| - k), if n.DevToken? then Clip(n.body, SERIAL_MAX) else serial);
    }
  }

  // ---- the printer ----

  datatype Token = Dev(serial: string) | Chunk(data: Bytes) | Noise(line: string)

  function Text(t: Token): string {
    match t
    case Dev(s) => DEV_MARK + (s + (":" + "\n"))
    case Chunk(c) => MC_MARK + (Enc(c) + (":" + "\n"))
    case Noise(line) => line + "\n"
  }

  function Render(tokens: seq<Token>): string {
    if tokens == [] then "" else Text(tokens[0]) + Render(tokens[1..])
  }

  /** A stream as it is printed, by example. */
  lemma PrintedStream()
    ensures Render([Dev("dect-0a1b"), Chunk([77, 97, 110]), Noise("DBG n=0")])
         == "DEV:dect-0a1b:\n" + ("MC:TWFu:\n" + ("DBG n=0\n" + ""))
  {
    Encodings();
    var a, b, c := Dev("dect-0a1b"), Chunk([77, 97, 110]), Noise("DBG n=0");
    hide Enc;
    assert Text(a) == "DEV:dect-0a1b:\n" && Text(b) == "MC:TWFu:\n" && Text(c) == "DBG n=0\n";
    hide Text, Render;
    RenderThree(a, b, c);
    assert Render([a, b, c]) == "DEV:dect-0a1b:\n" + ("MC:TWFu:\n" + ("DBG n=0\n" + ""));
  }

  lemma RenderThree(a: Token, b: Token, c: Token)
    ensures Render([a, b, c]) == Text(a) + (Text(b) + (Text(c) + ""))
  {
    hide Text;
    assert [a, b, c][1..] == [b, c] && [b, c][1..] == [c] && [c][1..] == [];
    assert Render([c]) == Text(c) + Render([]);
    assert Render([b, c]) == Text(b) + Render([c]);
  }

  lemma Encodings()
    ensures Enc([77, 97, 110]) == "TWFu" && Enc([77, 97]) == "TWE="
  {
    var three: Bytes, two: Bytes := [77, 97, 110], [77, 97];
    assert three[..3] == three && three[3..] == [] && Enc(three) == Group(three) + "";
  }

  /** Serials without the separator, chunks the host's buffer takes, lines in which no token begins. */
  predicate Printable(t: Token) {
    match t
    case Dev(s) => ':' !in s && |s| <= 39
    case Chunk(c) => |c| <= 512
    case Noise(line) => Find(line + "\n", DEV_MARK).None? && Find(line + "\n", MC_MARK).None?
  }

  /** What the tokens mean: each chunk with the device named last before it. */
  function Pairs(tokens: seq<Token>, serial: string): seq<Post> {
    if tokens == [] then [] else
    match tokens[0]
    case Dev(s) => Pairs(tokens[1..], s)
    case Chunk(c) => (if serial != "" && c != [] then [(serial, c)] else []) + Pairs(tokens[1..], serial)
    case Noise(_) => Pairs(tokens[1..], serial)
  }

  function Shifted(i: Option<nat>, n: nat): Option<nat> {
    match i
    case None => None
    case Some(k) => Some(k + n)
  }

  predicate EndsLine(line: string) { line == "" || line[|line| - 1] == '\n' }

  lemma StartsNowhere(line: string, rest: string, pat: string)
    requires line != "" && EndsLine(line) && Find(line, pat).None? && pat != "" && '\n' !in pat
    requires |line + rest| >= |pat|
    ensures (line + rest)[..|pat|] != pat
  {
    var start := (line + rest)[..|pat|];
    if |line| >= |pat| {
      assert start == line[..|pat|];
    } else {
      assert start[|line| - 1] == '\n' != pat[|line| - 1];
    }
  }

  /** A pattern is not found in, nor across the end of, a finished line that lacks it. */
  lemma {:induction false} FindPast(line: string, rest: string, pat: string)
    requires EndsLine(line) && Find(line, pat).None? && pat != "" && '\n' !in pat
    ensures Find(line + rest, pat) == Shifted(Find(rest, pat), |line|)
    decreases |line|
  {
    var text := line + rest;
    if line == "" {
      assert text == rest;
    } else {
      assert text[1..] == line[1..] + rest;
      if |text| >= |pat| {
        StartsNowhere(line, rest, pat);
      }
      FindPast(line[1..], rest, pat);
      if |text| < |pat| {
        assert Find(rest, pat).None?;
      }
    }
  }

  lemma BodyPast(line: string, rest: string, at: nat, isDev: bool)
    requires at <= |rest|
    ensures Body(line + rest, |line| + at, isDev) == Body(rest, at, isDev)
  {
    assert (line + rest)[|line| + at..] == rest[at..];
  }

  lemma NextPast(line: string, rest: string)
    requires EndsLine(line) && Find(line, DEV_MARK).None? && Find(line, MC_MARK).None?
    ensures NextToken(line + rest) == NextToken(rest)
  {
    hide Find, Body;
    FindPast(line, rest, DEV_MARK);
    FindPast(line, rest, MC_MARK);
    var d, m := Find(rest, DEV_MARK), Find(rest, MC_MARK);
    if Before(m, d) {
      BodyPast(line, rest, m.value + 3, false);
    } else if d.Some? {
      BodyPast(line, rest, d.value + 4, true);
    }
  }

  lemma ParsePast(line: string, rest: string, serial: string)
    requires EndsLine(line) && Find(line, DEV_MARK).None? && Find(line, MC_MARK).None?
    ensures Parse(line + rest, serial) == Parse(rest, serial)
  {
    hide NextToken, Emit, Find;
    NextPast(line, rest);
  }

  lemma {:induction false} FindColon(body: string, rest: string)
    requires ':' !in body
    ensures Find(body + (":" + rest), ":") == Some(|body|)
    decreases |body|
  {
    var text := body + (":" + rest);
    if body == "" {
      assert text[..1] == ":";
    } else {
      assert text[..1][0] == body[0];
      assert text[1..] == body[1..] + (":" + rest);
      FindColon(body[1..], rest);
    }
  }

  lemma ParseNewline(rest: string, serial: string)
    ensures Parse("\n" + rest, serial) == Parse(rest, serial)
  {
    assert Find("\n", DEV_MARK).None? && Find("\n", MC_MARK).None?;
    ParsePast("\n", rest, serial);
  }

  lemma NextDev(s: string, rest: string)
    requires ':' !in s
    ensures NextToken(Text(Dev(s)) + rest) == DevToken(s, "\n" + rest)
  {
    var tail := s + (":" + ("\n" + rest));
    assert Text(Dev(s)) + rest == DEV_MARK + tail;
    MarkFirst(DEV_MARK, tail);
    FindColon(s, "\n" + rest);
    hide Find;
    assert tail[|s| + 1..] == "\n" + rest && tail[..|s|] == s;
  }

  lemma NextMc(s: string, rest: string)
    requires ':' !in s
    ensures NextToken(MC_MARK + (s + (":" + ("\n" + rest)))) == McToken(s, "\n" + rest)
  {
    var tail := s + (":" + ("\n" + rest));
    MarkFirst(MC_MARK, tail);
    NotAtStart(tail);
    FindColon(s, "\n" + rest);
    hide Find;
    assert tail[|s| + 1..] == "\n" + rest && tail[..|s|] == s;
  }

  lemma NextChunk(c: Bytes, rest: string)
    ensures NextToken(Text(Chunk(c)) + rest) == McToken(Enc(c), "\n" + rest)
  {
    hide Find, Enc, NextToken;
    var s := Enc(c);
    EncHasNoColon(c);
    NextMc(s, rest);
    assert Text(Chunk(c)) + rest == MC_MARK + (s + (":" + ("\n" + rest)));
  }

  lemma ParseDev(s: string, rest: string, serial: string)
    requires Printable(Dev(s))
    ensures Parse(Text(Dev(s)) + rest, serial) == Parse(rest, s)
  {
    hide NextToken, Text, Emit;
    NextDev(s, rest);
    ParseNewline(rest, s);
  }

  lemma ParseChunk(c: Bytes, rest: string, serial: string)
    requires Printable(Chunk(c))
    ensures Parse(Text(Chunk(c)) + rest, serial)
         == (if serial != "" && c != [] then [(serial, c)] else []) + Parse(rest, serial)
  {
    hide NextToken, Text, Enc, Dec;
    NextChunk(c, rest);
    DecOfEnc(c);
    ParseNewline(rest, serial);
  }

  lemma MarkFirst(mark: string, tail: string)
    requires mark != ""
    ensures Find(mark + tail, mark) == Some(0) && (mark + tail)[|mark|..] == tail
  {
    assert (mark + tail)[..|mark|] == mark;
  }

  lemma NotAtStart(tail: string)
    ensures Find(MC_MARK + tail, DEV_MARK) != Some(0)
  {
    assert (MC_MARK + tail)[0] == 'M';
  }

  /** Parsing whatever was printed, any devices' streams after one another and diagnostic lines between,
      yields exactly the chunks with their devices, in order. */
  lemma {:induction false} ParseOfRender(tokens: seq<Token>, serial: string)
    requires forall t | t in tokens :: Printable(t)
    ensures Parse(Render(tokens), serial) == Pairs(tokens, serial)
  {
    hide Parse, Text, Printable;
    if tokens == [] {
      ParseNothing(serial);
    } else {
      var rest := Render(tokens[1..]);
      assert Printable(tokens[0]);
      match tokens[0]
      case Dev(s) =>
        ParseDev(s, rest, serial);
        ParseOfRender(tokens[1..], s);
      case Chunk(c) =>
        ParseChunk(c, rest, serial);
        ParseOfRender(tokens[1..], serial);
      case Noise(line) =>
        ParseNoise(line, rest, serial);
        ParseOfRender(tokens[1..], serial);
    }
  }

  lemma ParseNothing(serial: string)
    ensures Parse("", serial) == []
  {
  }

  lemma ParseNoise(line: string, rest: string, serial: string)
    requires Printable(Noise(line))
    ensures Parse(Text(Noise(line)) + rest, serial) == Parse(rest, serial)
  {
    hide Find, Parse;
    ParsePast(line + "\n", rest, serial);
  }

  /** And parsing a printed stream cut anywhere yields a prefix of them. */
  lemma ParseOfCut(tokens: seq<Token>, text: string, serial: string)
    requires (forall t | t in tokens :: Printable(t)) && text <= Render(tokens)
    ensures Parse(text, serial) <= Pairs(tokens, serial)
  {
    hide Parse, Printable;
    ParseOfRender(tokens, serial);
    ParsePrefix(Render(tokens), |text|, serial);
    assert Render(tokens)[..|text|] == text;
  }
}
