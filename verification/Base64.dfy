/** The base64 pair of the telemetry path (section 4 of RFC 4648): the device's encoder (b64enc,
    dect_mesh/src/aether_9p.c) and the host's decoder (b64dec, tools/aether_forwarder.c), whose 32-bit
    accumulator only ever shifts left. */
module Base64 {
  import opened Wire

  function Letter(d: nat): char
    requires d < 64
  {
    if d < 26 then (65 + d) as char
    else if d < 52 then (71 + d) as char
    else if d < 62 then (d - 4) as char
    else if d == 62 then '+' else '/'
  }

  /** The decoder's table; characters outside the alphabet are skipped. */
  function Sextet(c: char): (d: Option<nat>)
    ensures d.Some? ==> d.value < 64
  {
    if 'A' <= c <= 'Z' then Some(c as nat - 65)
    else if 'a' <= c <= 'z' then Some(c as nat - 71)
    else if '0' <= c <= '9' then Some(c as nat + 4)
    else if c == '+' then Some(62)
    else if c == '/' then Some(63)
    else None
  }

  lemma LetterIsItsSextet(d: nat)
    requires d < 64
    ensures Sextet(Letter(d)) == Some(d) && Letter(d) != '=' && Letter(d) != ':'
  {
  }

  /** The alphabet of the standard: A to Z, a to z, 0 to 9, plus and slash. */
  lemma StandardAlphabet(d: nat)
    requires d < 64
    ensures Letter(0) == 'A' && Letter(25) == 'Z' && Letter(26) == 'a' && Letter(51) == 'z'
    ensures Letter(52) == '0' && Letter(61) == '9' && Letter(62) == '+' && Letter(63) == '/'
    ensures d < 61 && d != 25 && d != 51 ==> Letter(d + 1) as int == Letter(d) as int + 1
  {
  }

  // ---- encoding ----

  /** The four letters of up to three bytes. */
  function Group(b: Bytes): (s: string)
    requires 0 < |b| <= 3
    ensures |s| == 4
  {
    var b0: int, b1: int, b2: int := b[0], if |b| > 1 then b[1] else 0, if |b| > 2 then b[2] else 0;
    var v := b0 * 0x1_0000 + b1 * 0x100 + b2;
    [Letter(v / 0x4_0000), Letter(v / 0x1000 % 64),
     if |b| > 1 then Letter(v / 64 % 64) else '=', if |b| > 2 then Letter(v % 64) else '=']
  }

  function Enc(b: Bytes): (s: string)
    ensures |s| == (|b| + 2) / 3 * 4
    decreases |b|
  {
    if b == [] then "" else if |b| < 3 then Group(b) else Group(b[..3]) + Enc(b[3..])
  }

  /** Neither a terminator nor a token can hide inside an encoded chunk. */
  lemma {:induction false} EncHasNoColon(b: Bytes)
    ensures ':' !in Enc(b)
    decreases |b|
  {
    if |b| > 3 {
      EncHasNoColon(b[3..]);
    }
  }

  // ---- decoding ----

  function Scale(bits: nat): (p: nat)
    ensures p > 0
  {
    if bits == 0 then 1 else if bits == 2 then 4 else if bits == 4 then 16 else 64
  }

  predicate Phase(bits: nat) { bits == 0 || bits == 2 || bits == 4 || bits == 6 }

  function Shift(val: u32, d: nat): u32
    requires d < 64
  {
    (val * 64 + d) % 0x1_0000_0000
  }

  /** The decoder from any accumulator: `bits` of it are still to be used. */
  function DecFrom(s: string, val: u32, bits: nat): Bytes
    requires Phase(bits)
    decreases |s|
  {
    if s == "" || s[0] == '=' then [] else
    match Sextet(s[0])
    case None => DecFrom(s[1..], val, bits)
    case Some(d) =>
      var v := Shift(val, d);
      if bits == 0 then DecFrom(s[1..], v, 6)
      else [v / Scale(bits - 2) % 0x100] + DecFrom(s[1..], v, bits - 2)
  }

  function Dec(s: string): Bytes { DecFrom(s, 0, 0) }

  /** Only the low fourteen bits of the accumulator ever matter: so it may wrap. */
  lemma {:induction false} LowBitsSuffice(s: string, v: u32, w: u32, bits: nat)
    requires Phase(bits) && v % 0x4000 == w % 0x4000
    ensures DecFrom(s, v, bits) == DecFrom(s, w, bits)
    decreases |s|
  {
    if s != "" && s[0] != '=' {
      match Sextet(s[0])
      case None => LowBitsSuffice(s[1..], v, w, bits);
      case Some(d) =>
        ShiftLow(v, w, d);
        var v', w' := Shift(v, d), Shift(w, d);
        LowBitsSuffice(s[1..], v', w', if bits == 0 then 6 else bits - 2);
        if bits > 0 {
          OutLow(v', w', bits - 2);
        }
    }
  }

  /** Adding multiples of 2^12 shows in no byte the decoder takes. */
  lemma LowTwelve(x: nat, y: nat, j: int)
    requires x == y + j * 0x1000
    ensures x % 64 == y % 64 && x % 0x100 == y % 0x100
    ensures x / 4 % 0x100 == y / 4 % 0x100
    ensures x / 16 % 0x100 == y / 16 % 0x100
  {
    assert x / 4 == y / 4 + j * 0x400;
    assert x / 16 == y / 16 + j * 0x100;
    Multiple(x, y, j * 64, 64);
    Multiple(x, y, j * 16, 0x100);
    Multiple(x / 4, y / 4, j * 4, 0x100);
    Multiple(x / 16, y / 16, j, 0x100);
  }

  lemma Multiple(x: nat, y: nat, j: int, m: nat)
    requires m > 0 && x == y + j * m
    ensures x % m == y % m
  {
    var i := x / m - y / m - j;
    assert i * m == x / m * m - y / m * m - j * m;
    AtLeastOne(i, m);
  }

  lemma AtLeastOne(i: int, m: int)
    requires m > 0
    ensures i >= 1 ==> i * m >= m
    ensures i <= -1 ==> i * m <= -m
  {
  }

  lemma ShiftLow(v: u32, w: u32, d: nat)
    requires d < 64 && v % 0x4000 == w % 0x4000
    ensures Shift(v, d) % 0x4000 == Shift(w, d) % 0x4000
  {
    var m, n := v * 64 + d, w * 64 + d;
    var q := v / 0x4000 - w / 0x4000;
    Multiple(m, n, q * 64, 0x4000);
    Multiple(m, m % 0x1_0000_0000, m / 0x1_0000_0000 * 0x4_0000, 0x4000);
    Multiple(n, n % 0x1_0000_0000, n / 0x1_0000_0000 * 0x4_0000, 0x4000);
  }

  lemma OutLow(v: u32, w: u32, bits: nat)
    requires v % 0x4000 == w % 0x4000 && (bits == 0 || bits == 2 || bits == 4)
    ensures v / Scale(bits) % 0x100 == w / Scale(bits) % 0x100
  {
    LowTwelve(v, w, (v / 0x4000 - w / 0x4000) * 4);
  }

  /** Characters outside the alphabet, line breaks say, do not matter wherever they are. */
  lemma {:induction false} StrayCharactersAreSkipped(a: string, c: char, b: string, val: u32, bits: nat)
    requires Phase(bits) && Sextet(c).None? && c != '='
    ensures DecFrom(a + [c] + b, val, bits) == DecFrom(a + b, val, bits)
    decreases |a|
  {
    hide Sextet, Shift, Scale;
    if a == "" {
      assert "" + [c] + b == [c] + b && ([c] + b)[1..] == b && "" + b == b;
    } else if a[0] != '=' {
      assert (a + [c] + b)[1..] == a[1..] + [c] + b && (a + b)[1..] == a[1..] + b;
      match Sextet(a[0])
      case None => StrayCharactersAreSkipped(a[1..], c, b, val, bits);
      case Some(d) => StrayCharactersAreSkipped(a[1..], c, b, Shift(val, d), if bits == 0 then 6 else bits - 2);
    }
  }

  // ---- the inverse ----

  /** What a letter contributes when `bits` of the sextet before it are waiting. */
  lemma NextByte(val: u32, before: nat, d: nat)
    requires before < 64 && d < 64 && val % 64 == before
    ensures var v := Shift(val, d);
            && v % 64 == d
            && v / Scale(4) % 0x100 == before * 4 + d / 16
            && v / Scale(2) % 0x100 == before % 16 * 16 + d / 4
            && v / Scale(0) % 0x100 == before % 4 * 64 + d
  {
    var y, n := before * 64 + d, val * 64 + d;
    var v := Shift(val, d);
    assert n == y + val / 64 * 0x1000;
    assert v == n - n / 0x1_0000_0000 * 0x10_0000 * 0x1000;
    LowTwelve(v, y, val / 64 - n / 0x1_0000_0000 * 0x10_0000);
    Small(before, d);
  }

  lemma Divided(y: nat, k: nat, f: nat, m: nat)
    requires m > 0 && y == m * k + f && f < m
    ensures y / m == k && y % m == f
  {
    var i := y / m - k;
    assert m * i == m * (y / m) - m * k;
    AtLeastOne(i, m);
  }

  lemma Small(before: nat, d: nat)
    requires before < 64 && d < 64
    ensures var y := before * 64 + d;
            && y % 64 == d && y / 16 % 0x100 == before * 4 + d / 16
            && y / 4 % 0x100 == before % 16 * 16 + d / 4 && y % 0x100 == before % 4 * 64 + d
  {
    SmallHigh(before, d, d / 16, d % 16);
    SmallMiddle(before, d, before / 16, before % 16, d / 4, d % 4);
    SmallLow(before, d, before / 4, before % 4);
  }

  lemma SmallHigh(before: nat, d: nat, e: nat, f: nat)
    requires before < 64 && d < 64 && d == 16 * e + f && f < 16
    ensures (before * 64 + d) / 16 % 0x100 == before * 4 + e
  {
    Divided(before * 64 + d, before * 4 + e, f, 16);
    Divided(before * 4 + e, 0, before * 4 + e, 0x100);
  }

  lemma SmallMiddle(before: nat, d: nat, q: nat, r: nat, g: nat, h: nat)
    requires before == 16 * q + r && r < 16 && d < 64 && d == 4 * g + h && h < 4
    ensures (before * 64 + d) / 4 % 0x100 == r * 16 + g
  {
    Divided(before * 64 + d, before * 16 + g, h, 4);
    Divided(before * 16 + g, q, r * 16 + g, 0x100);
  }

  lemma SmallLow(before: nat, d: nat, q: nat, r: nat)
    requires before == 4 * q + r && r < 4 && d < 64
    ensures (before * 64 + d) % 64 == d && (before * 64 + d) % 0x100 == r * 64 + d
  {
    Divided(before * 64 + d, before, d, 64);
    Divided(before * 64 + d, q, r * 64 + d, 0x100);
  }

  lemma TakeLetter(d: nat, rest: string, val: u32, bits: nat)
    requires d < 64 && Phase(bits)
    ensures DecFrom([Letter(d)] + rest, val, bits)
         == var v := Shift(val, d);
            if bits == 0 then DecFrom(rest, v, 6) else [v / Scale(bits - 2) % 0x100] + DecFrom(rest, v, bits - 2)
  {
    LetterIsItsSextet(d);
    hide Letter, Shift;
    assert ([Letter(d)] + rest)[1..] == rest;
  }

  lemma SextetsOf(b0: nat, b1: nat, b2: nat)
    requires b0 < 0x100 && b1 < 0x100 && b2 < 0x100
    ensures var v := b0 * 0x1_0000 + b1 * 0x100 + b2;
            && v / 0x4_0000 == b0 / 4 && v / 0x1000 % 64 == b0 % 4 * 16 + b1 / 16
            && v / 64 % 64 == b1 % 16 * 4 + b2 / 64 && v % 64 == b2 % 64
  {
    FirstTwoSextets(b0, b1, b2, b0 / 4, b0 % 4, b1 / 16, b1 % 16);
    LastTwoSextets(b0, b1, b2, b1 / 16, b1 % 16, b2 / 64, b2 % 64);
  }

  lemma FirstTwoSextets(b0: nat, b1: nat, b2: nat, h0: nat, l0: nat, h1: nat, l1: nat)
    requires b0 == 4 * h0 + l0 && l0 < 4 && b1 == 16 * h1 + l1 && l1 < 16 && h1 < 16 && b2 < 0x100
    ensures var v := b0 * 0x1_0000 + b1 * 0x100 + b2;
            v / 0x4_0000 == h0 && v / 0x1000 % 64 == l0 * 16 + h1
  {
    var v := b0 * 0x1_0000 + b1 * 0x100 + b2;
    Divided(v, h0, l0 * 0x1_0000 + b1 * 0x100 + b2, 0x4_0000);
    Divided(v, b0 * 16 + h1, l1 * 0x100 + b2, 0x1000);
    Divided(b0 * 16 + h1, h0, l0 * 16 + h1, 64);
  }

  lemma LastTwoSextets(b0: nat, b1: nat, b2: nat, h1: nat, l1: nat, h2: nat, l2: nat)
    requires b1 == 16 * h1 + l1 && l1 < 16 && b2 == 64 * h2 + l2 && l2 < 64 && h2 < 4
    ensures var v := b0 * 0x1_0000 + b1 * 0x100 + b2;
            v / 64 % 64 == l1 * 4 + h2 && v % 64 == l2
  {
    var v := b0 * 0x1_0000 + b1 * 0x100 + b2;
    Divided(v, b0 * 0x400 + b1 * 4 + h2, l2, 64);
    Divided(b0 * 0x400 + b1 * 4 + h2, b0 * 16 + h1, l1 * 4 + h2, 64);
  }

  /** The accumulator through the four letters of a group, and the bytes it gives. */
  lemma GroupBytes(val: u32, b0: nat, b1: nat, b2: nat) returns (v1: u32, v2: u32, v3: u32)
    requires b0 < 0x100 && b1 < 0x100 && b2 < 0x100
    ensures v1 == Shift(Shift(val, b0 / 4), b0 % 4 * 16 + b1 / 16) && v1 / Scale(4) % 0x100 == b0
    ensures v2 == Shift(v1, b1 % 16 * 4 + b2 / 64) && v2 / Scale(2) % 0x100 == b1
    ensures v3 == Shift(v2, b2 % 64) && v3 / Scale(0) % 0x100 == b2
  {
    var d0, d1, d2, d3 := b0 / 4, b0 % 4 * 16 + b1 / 16, b1 % 16 * 4 + b2 / 64, b2 % 64;
    hide Shift, Scale;
    var v0 := Shift(val, d0);
    NextByte(val, val % 64, d0);
    v1 := Shift(v0, d1);
    NextByte(v0, d0, d1);
    v2 := Shift(v1, d2);
    NextByte(v1, d1, d2);
    v3 := Shift(v2, d3);
    NextByte(v2, d2, d3);
  }

  function Padded(b: Bytes): (nat, nat, nat)
    requires 0 < |b| <= 3
  {
    (b[0], if |b| > 1 then b[1] else 0, if |b| > 2 then b[2] else 0)
  }

  lemma GroupLetters(b: Bytes, rest: string)
    requires 0 < |b| <= 3
    ensures var (b0, b1, b2) := Padded(b);
            && b0 < 0x100 && b1 < 0x100 && b2 < 0x100
            && Group(b) + rest == [Letter(b0 / 4)] + ([Letter(b0 % 4 * 16 + b1 / 16)] +
                                  ([if |b| > 1 then Letter(b1 % 16 * 4 + b2 / 64) else '='] +
                                  ([if |b| > 2 then Letter(b2 % 64) else '='] + rest)))
  {
    hide Letter;
    var (b0, b1, b2) := Padded(b);
    SextetsOf(b0, b1, b2);
  }

  lemma TakeTwo(x: nat, y: nat, rest: string, val: u32)
    requires x < 64 && y < 64
    ensures var v := Shift(Shift(val, x), y);
            DecFrom([Letter(x)] + ([Letter(y)] + rest), val, 0) == [v / Scale(4) % 0x100] + DecFrom(rest, v, 4)
  {
    hide Letter, DecFrom, Shift, Scale;
    TakeLetter(x, [Letter(y)] + rest, val, 0);
    TakeLetter(y, rest, Shift(val, x), 6);
  }

  lemma DecOneByte(b: Bytes, val: u32)
    requires |b| == 1
    ensures DecFrom(Group(b) + "", val, 0) == b
  {
    GroupLetters(b, "");
    var v1, v2, v3 := GroupBytes(val, b[0], 0, 0);
    hide Letter, DecFrom, Shift, Scale, Group;
    var t2: string := ['='] + (['='] + "");
    TakeTwo(b[0] / 4, b[0] % 4 * 16 + 0 / 16, t2, val);
    PadEnds(t2, v1, 4);
  }

  lemma TakeThree(x: nat, y: nat, z: nat, val: u32)
    requires x < 64 && y < 64 && z < 64
    ensures var v := Shift(Shift(val, x), y);
            DecFrom([Letter(x)] + ([Letter(y)] + ([Letter(z)] + (['='] + ""))), val, 0)
            == [v / Scale(4) % 0x100] + ([Shift(v, z) / Scale(2) % 0x100] + [])
  {
    hide Letter, DecFrom, Shift, Scale;
    var v, pad: string := Shift(Shift(val, x), y), ['='] + "";
    TakeTwo(x, y, [Letter(z)] + pad, val);
    TakeLetter(z, pad, v, 4);
    PadEnds(pad, Shift(v, z), 2);
  }

  lemma DecTwoBytes(b: Bytes, val: u32)
    requires |b| == 2
    ensures DecFrom(Group(b) + "", val, 0) == b
  {
    GroupLetters(b, "");
    var v1, v2, v3 := GroupBytes(val, b[0], b[1], 0);
    hide Letter, DecFrom, Shift, Scale, Group;
    TakeThree(b[0] / 4, b[0] % 4 * 16 + b[1] / 16, b[1] % 16 * 4 + 0 / 64, val);
    assert b == [b[0]] + ([b[1]] + []);
  }

  /** A full group gives back its three bytes and leaves the decoder where a group starts. */
  lemma DecGroup(b: Bytes, rest: string, val: u32) returns (v: u32)
    requires |b| == 3
    ensures DecFrom(Group(b) + rest, val, 0) == b + DecFrom(rest, v, 0)
  {
    var (b0, b1, b2) := Padded(b);
    GroupLetters(b, rest);
    var v1, v2, v3 := GroupBytes(val, b0, b1, b2);
    hide Letter, DecFrom, Shift, Scale, Group;
    var t3: string := [Letter(b2 % 64)] + rest;
    var t2: string := [Letter(b1 % 16 * 4 + b2 / 64)] + t3;
    TakeTwo(b0 / 4, b0 % 4 * 16 + b1 / 16, t2, val);
    TakeLetter(b1 % 16 * 4 + b2 / 64, t3, v1, 4);
    TakeLetter(b2 % 64, rest, v2, 2);
    v := v3;
    Three(b, DecFrom(rest, v, 0));
  }

  lemma Three(b: Bytes, rest: Bytes)
    requires |b| == 3
    ensures b + rest == [b[0]] + ([b[1]] + ([b[2]] + rest))
  {
  }

  lemma PadEnds(s: string, val: u32, bits: nat)
    requires Phase(bits) && (s == "" || s[0] == '=')
    ensures DecFrom(s, val, bits) == []
  {
  }

  /** The decoder undoes the encoder for every byte string, from any accumulator a group can start with. */
  lemma {:induction false} DecFromEnc(b: Bytes, val: u32)
    ensures DecFrom(Enc(b), val, 0) == b
    decreases |b|
  {
    hide Group, DecFrom;
    if b == [] {
      PadEnds("", val, 0);
    } else if |b| < 3 {
      if |b| == 1 {
        DecOneByte(b, val);
      } else {
        DecTwoBytes(b, val);
      }
      assert Group(b) + "" == Group(b);
    } else {
      var v := DecGroup(b[..3], Enc(b[3..]), val);
      DecFromEnc(b[3..], v);
    }
  }

  lemma DecOfEnc(b: Bytes)
    ensures Dec(Enc(b)) == b
  {
    DecFromEnc(b, 0);
  }

  // ---- the loops ----

  function From(b: Bytes, i: nat): Bytes { if i < |b| then b[i..] else [] }

  lemma EncGroup(b: Bytes, i: nat)
    requires i < |b|
    ensures Enc(From(b, i)) == Group(if |b| - i > 3 then b[i..i + 3] else b[i..]) + Enc(From(b, i + 3))
  {
    var rest := b[i..];
    assert |rest| >= 3 ==> rest[..3] == b[i..i + 3] && rest[3..] == b[i + 3..];
    assert |rest| == 3 ==> b[i..i + 3] == b[i..] && rest[3..] == [];
    assert |rest| < 3 ==> Enc(rest) == Group(rest) + "";
  }

  /** b64enc, into a buffer at an index. */
  method B64Enc(input: Bytes, out: array<char>, at: nat) returns (o: nat)
    requires at + (|input| + 2) / 3 * 4 <= out.Length
    modifies out
    ensures o == |Enc(input)| && at + o <= out.Length
    ensures out[..at + o] == old(out[..at]) + Enc(input) && out[at + o..] == old(out[at + o..])
  {
    hide Group, Enc, From;
    var i := 0;
    o := 0;
    ghost var was, whole := out[..], out[..at] + Enc(input);
    ghost var done: string := out[..at];
    FromStart(input);
    while i < |input|
      invariant o == |done| - at && |whole| <= out.Length
      invariant done + Enc(From(input, i)) == whole
      invariant out[..at + o] == done && out[at + o..] == was[at + o..]
    {
      EncGroup(input, i);
      var g := Group(if |input| - i > 3 then input[i..i + 3] else input[i..]);
      Regroup(done, g, Enc(From(input, i + 3)));
      FourOn(was, out[..], at + o);
      PutGroup(g, out, at + o);
      done := done + g;
      i := i + 3;
      o := o + 4;
    }
    FromEnd(input, i);
  }

  lemma Regroup(a: string, b: string, c: string)
    ensures a + (b + c) == a + b + c && |a + (b + c)| == |a| + |b| + |c|
  {
  }

  lemma FourOn(a: string, b: string, k: nat)
    requires k + 4 <= |a| && k + 4 <= |b| && a[k..] == b[k..]
    ensures a[k + 4..] == b[k + 4..]
  {
    assert a[k + 4..] == a[k..][4..] && b[k + 4..] == b[k..][4..];
  }

  lemma FromStart(b: Bytes)
    ensures From(b, 0) == b
  {
  }

  lemma FromEnd(b: Bytes, i: nat)
    requires i >= |b|
    ensures Enc(From(b, i)) == ""
  {
  }

  method PutGroup(g: string, out: array<char>, o: nat)
    requires |g| == 4 && o + 4 <= out.Length
    modifies out
    ensures out[..o + 4] == old(out[..o]) + g && out[o + 4..] == old(out[o + 4..])
  {
    out[o], out[o + 1], out[o + 2], out[o + 3] := g[0], g[1], g[2], g[3];
  }

  /** b64dec: as many of the decoded bytes as the buffer takes. */
  method B64Dec(input: string, out: array<byte>) returns (n: nat)
    modifies out
    ensures n <= out.Length && n == if |Dec(input)| < out.Length then |Dec(input)| else out.Length
    ensures out[..n] == Dec(input)[..n]
  {
    hide DecFrom, Shift, Scale, Sextet;
    var val: u32, bits, i := 0, 0, 0;
    n := 0;
    ghost var done: Bytes := [];
    while i < |input| && input[i] != '='
      invariant i <= |input| && Phase(bits)
      invariant done + DecFrom(input[i..], val, bits) == Dec(input)
      invariant n <= out.Length && n == if |done| < out.Length then |done| else out.Length
      invariant out[..n] == done[..n]
    {
      DecUnfold(input, i, val, bits);
      var d := Sextet(input[i]);
      i := i + 1;
      if d.None? {
        continue;
      }
      val := Shift(val, d.value);
      bits := bits + 6;
      if bits >= 8 {
        bits := bits - 8;
        var next := val / Scale(bits) % 0x100;
        if n < out.Length {
          out[n] := next;
          n := n + 1;
        }
        Reassociate(done, next, DecFrom(input[i..], val, bits));
        done := done + [next];
      }
    }
    PadEnds(input[i..], val, bits);
    assert done + [] == done;
  }

  lemma Reassociate(a: Bytes, b: byte, c: Bytes)
    ensures a + ([b] + c) == a + [b] + c
  {
  }

  lemma DecUnfold(input: string, i: nat, val: u32, bits: nat)
    requires i < |input| && input[i] != '=' && Phase(bits)
    ensures DecFrom(input[i..], val, bits)
         == match Sextet(input[i])
            case None => DecFrom(input[i + 1..], val, bits)
            case Some(d) =>
              var v := Shift(val, d);
              if bits == 0 then DecFrom(input[i + 1..], v, 6)
              else [v / Scale(bits - 2) % 0x100] + DecFrom(input[i + 1..], v, bits - 2)
  {
    assert input[i..][1..] == input[i + 1..];
  }
}
