/** dev/mflt_mesh end to end (gen_mflt_mesh in dect_mesh/src/aether_9p.c into forward_stream in
    tools/aether_forwarder.c): peers drained one after another into one buffer, with diagnostic lines
    between, cut where the buffer ends, and parsed again by the host. */
module MeshTelemetry {
  import opened Wire
  import opened Telemetry
  import opened MfltFiles

  /** `stream`: all that draining this neighbor would bring; `out`: what its drain comes to, if that is a possible
      outcome for the room there is, and nothing otherwise; `late`: the time budget is used up when it is its turn;
      `diag`: the line printed when it brings nothing. */
  datatype Neighbor = Neighbor(active: bool, isSelf: bool, stream: seq<Token>, out: string, late: bool, diag: string)

  /** A neighbor reached over the mesh has a mesh context, so its stream names its device first. */
  predicate WellFormed(n: Neighbor) {
    && (forall t | t in n.stream :: Printable(t)) && NamedFirst(n.stream)
    && Printable(Noise(n.diag)) && |n.diag| < 64
  }

  const MAX_DRAINED := 3
  const DRAIN_ROOM := 128
  const DIAG_ROOM := 64
  const HEADER_ROOM := 48

  /** What aether_net_drain_peer promises: the stream from its start, cut only where the room ends. */
  predicate DrainBrings(full: string, out: string, room: nat) {
    out <= full && |out| < room && (out == full || |out| + 8 >= room)
  }

  function DrainOf(n: Neighbor, room: nat): string {
    if DrainBrings(Render(n.stream), n.out, room) then n.out else ""
  }

  /** The line that always comes first, given room for it. */
  function Head(header: string, bufSize: nat): string { if bufSize > 48 then header + "\n" else "" }

  function Joined(parts: seq<string>): string {
    if parts == [] then "" else Joined(parts[..|parts| - 1]) + parts[|parts| - 1]
  }

  /** The neighbor is tried, with so much room: it is in use and not the node itself. */
  predicate Eligible(n: Neighbor) { n.active && !n.isSelf }

  /** What one neighbor adds, given the text before it. */
  predicate Adds(n: Neighbor, part: string, room: nat) {
    if !Eligible(n) then part == ""
    else
      && !n.late && room >= 128
      && part == if DrainOf(n, room) != "" then DrainOf(n, room) else n.diag + "\n"
  }

  /** The room there is when the j-th neighbor's turn comes. */
  function RoomAt(head: string, parts: seq<string>, j: nat, bufSize: nat): int
    requires j <= |parts|
  {
    bufSize - |head + Joined(parts[..j])|
  }

  predicate AddsAt(ns: seq<Neighbor>, head: string, parts: seq<string>, j: nat, bufSize: nat)
    requires j < |parts| <= |ns|
  {
    var room := RoomAt(head, parts, j, bufSize); room >= 0 && Adds(ns[j], parts[j], room)
  }

  predicate BringsAt(ns: seq<Neighbor>, head: string, parts: seq<string>, j: nat, bufSize: nat)
    requires j < |parts| <= |ns|
  {
    var room := RoomAt(head, parts, j, bufSize); Eligible(ns[j]) && room >= 0 && DrainOf(ns[j], room) != ""
  }

  /** The table is gone through from its start: each neighbor in turn adds its part; `drained` are those whose
      drain brought something, in order. */
  ghost predicate Walked(ns: seq<Neighbor>, head: string, parts: seq<string>, drained: seq<nat>, bufSize: nat) {
    && |parts| <= |ns| && |drained| <= 3
    && (forall j: nat | j < |parts| :: AddsAt(ns, head, parts, j, bufSize))
    && Bringers(ns, head, parts, drained, bufSize)
  }

  ghost predicate Bringers(ns: seq<Neighbor>, head: string, parts: seq<string>, drained: seq<nat>, bufSize: nat)
    requires |parts| <= |ns|
  {
    && (forall k | 0 <= k < |drained| :: drained[k] < |parts|)
    && (forall j: nat | j < |parts| :: j in drained <==> BringsAt(ns, head, parts, j, bufSize))
    && (forall j, k | 0 <= j < k < |drained| :: drained[j] < drained[k])
  }

  /** It ends at the table's end, with three drained, or at an eligible neighbor for which room or time is short. */
  predicate WalkEnds(ns: seq<Neighbor>, parts: seq<string>, drained: seq<nat>, left: int) {
    || |parts| == |ns| || |drained| == 3
    || (|parts| < |ns| && Eligible(ns[|parts|]) && (left < 128 || ns[|parts|].late))
  }

  lemma SameAt(ns: seq<Neighbor>, head: string, parts: seq<string>, part: string, j: nat, bufSize: nat)
    requires j < |parts| < |ns|
    ensures AddsAt(ns, head, parts + [part], j, bufSize) == AddsAt(ns, head, parts, j, bufSize)
    ensures BringsAt(ns, head, parts + [part], j, bufSize) == BringsAt(ns, head, parts, j, bufSize)
  {
    assert (parts + [part])[..j] == parts[..j];
  }

  lemma LastAt(ns: seq<Neighbor>, head: string, parts: seq<string>, part: string, bufSize: nat)
    requires |parts| < |ns| && |head + Joined(parts)| <= bufSize
    ensures var i, room := |parts|, bufSize - |head + Joined(parts)|;
            && AddsAt(ns, head, parts + [part], i, bufSize) == Adds(ns[i], part, room)
            && BringsAt(ns, head, parts + [part], i, bufSize) == (Eligible(ns[i]) && DrainOf(ns[i], room) != "")
  {
    assert (parts + [part])[..|parts|] == parts;
  }

  lemma WalkedOn(ns: seq<Neighbor>, head: string, parts: seq<string>, drained: seq<nat>, bufSize: nat, part: string)
    requires Walked(ns, head, parts, drained, bufSize) && |parts| < |ns| && |drained| < 3
    requires |head + Joined(parts)| <= bufSize && Adds(ns[|parts|], part, bufSize - |head + Joined(parts)|)
    ensures var i := |parts|;
            var brings := Eligible(ns[i]) && DrainOf(ns[i], bufSize - |head + Joined(parts)|) != "";
            Walked(ns, head, parts + [part], if brings then drained + [i] else drained, bufSize)
    ensures head + Joined(parts + [part]) == head + Joined(parts) + part
  {
    hide DrainOf, Adds, Eligible, AddsAt, BringsAt, Bringers;
    JoinedMore(parts, part);
    LastAt(ns, head, parts, part, bufSize);
    BringersMore(ns, head, parts, drained, bufSize, part);
    hide Joined;
    forall j: nat | j < |parts|
      ensures AddsAt(ns, head, parts + [part], j, bufSize)
    {
      SameAt(ns, head, parts, part, j, bufSize);
    }
  }

  lemma BringersMore(ns: seq<Neighbor>, head: string, parts: seq<string>, drained: seq<nat>, bufSize: nat, part: string)
    requires |parts| < |ns| && Bringers(ns, head, parts, drained, bufSize)
    ensures var brings := BringsAt(ns, head, parts + [part], |parts|, bufSize);
            Bringers(ns, head, parts + [part], if brings then drained + [|parts|] else drained, bufSize)
  {
    hide BringsAt;
    var i, more := |parts|, parts + [part];
    var brings := BringsAt(ns, head, more, i, bufSize);
    var now := if brings then drained + [i] else drained;
    forall j: nat | j < |more|
      ensures j in now <==> BringsAt(ns, head, more, j, bufSize)
    {
      if j < i {
        SameAt(ns, head, parts, part, j, bufSize);
      }
    }
  }

  lemma JoinedMore(parts: seq<string>, part: string)
    ensures Joined(parts + [part]) == Joined(parts) + part
  {
    assert (parts + [part])[..|parts|] == parts;
  }

  /** The chunks of the neighbors drained, each under its own device. */
  function Attributed(ns: seq<Neighbor>, drained: seq<nat>): seq<Post>
    requires forall k | 0 <= k < |drained| :: drained[k] < |ns|
  {
    if drained == [] then []
    else Attributed(ns, drained[..|drained| - 1]) + Pairs(ns[drained[|drained| - 1]].stream, "")
  }

  /** `text` is `all` printed, whole unless less than a drain's room is left. */
  ghost predicate Printed(text: string, all: seq<Token>, bufSize: nat) {
    && (forall t | t in all :: Printable(t)) && |text| <= bufSize
    && text <= Render(all) && (text == Render(all) || bufSize - |text| < DRAIN_ROOM)
  }

  lemma PrintedMore(text: string, all: seq<Token>, bufSize: nat, stream: seq<Token>, out: string)
    requires Printed(text, all, bufSize) && bufSize - |text| >= DRAIN_ROOM
    requires (forall t | t in stream :: Printable(t)) && DrainBrings(Render(stream), out, bufSize - |text|)
    ensures Printed(text + out, all + stream, bufSize)
  {
    hide Render, Printable;
    RenderConcat(all, stream);
    assert text + out <= text + Render(stream);
  }

  lemma NoisePrinted(text: string, all: seq<Token>, bufSize: nat, line: string)
    requires Printed(text, all, bufSize) && text == Render(all) && Printable(Noise(line))
    requires |text| + |line| + 1 <= bufSize
    ensures Printed(text + line + "\n", all + [Noise(line)], bufSize)
    ensures Pairs(all + [Noise(line)], "") == Pairs(all, "")
  {
    hide Printable;
    RenderConcat(all, [Noise(line)]);
    RenderOne(Noise(line));
    PairsConcat(all, [Noise(line)], "");
    hide Render;
    assert Pairs([Noise(line)], SerialAfter(all, "")) == Pairs([], SerialAfter(all, "")) == [];
  }

  lemma AttributedMore(ns: seq<Neighbor>, drained: seq<nat>, i: nat, all: seq<Token>)
    requires (forall k | 0 <= k < |drained| :: drained[k] < |ns|) && i < |ns| && NamedFirst(ns[i].stream)
    requires Pairs(all, "") == Attributed(ns, drained)
    ensures Pairs(all + ns[i].stream, "") == Attributed(ns, drained + [i])
  {
    var stream, serial := ns[i].stream, SerialAfter(all, "");
    PairsConcat(all, stream, "");
    if serial != "" {
      LeftoverName(stream, serial);
    }
    assert (drained + [i])[..|drained|] == drained;
  }

  /** The host parses a prefix of what the drained neighbors emitted, all of it if nothing was cut. */
  lemma HostSees(ns: seq<Neighbor>, drained: seq<nat>, text: string, all: seq<Token>, bufSize: nat)
    requires Printed(text, all, bufSize) && forall k | 0 <= k < |drained| :: drained[k] < |ns|
    requires Pairs(all, "") == Attributed(ns, drained)
    ensures Parse(text, "") <= Attributed(ns, drained)
    ensures bufSize - |text| >= DRAIN_ROOM ==> Parse(text, "") == Attributed(ns, drained)
  {
    hide Printable, Parse, Attributed;
    ParseOfCut(all, text, "");
    if text == Render(all) {
      ParseOfRender(all, "");
    }
  }

  /** gen_mflt_mesh: the neighbors are drained in table order, up to three, as Walked says; whatever was drained
      or cut, the host that parses the buffer posts their chunks, each under its own device and none twice, from
      the first on, and posts all of them when room for another drain is left. */
  method GenMfltMesh(ns: seq<Neighbor>, header: string, bufSize: nat)
    returns (text: string, ghost drained: seq<nat>, ghost parts: seq<string>)
    requires forall n | n in ns :: WellFormed(n)
    requires Printable(Noise(header)) && |header| < HEADER_ROOM
    ensures |text| <= bufSize && text == Head(header, bufSize) + Joined(parts)
    ensures Walked(ns, Head(header, bufSize), parts, drained, bufSize)
    ensures WalkEnds(ns, parts, drained, bufSize - |text|)
    ensures forall k | 0 <= k < |drained| :: drained[k] < |ns| && ns[drained[k]].active && !ns[drained[k]].isSelf
    ensures Parse(text, "") <= Attributed(ns, drained)
    ensures bufSize - |text| >= 128 ==> Parse(text, "") == Attributed(ns, drained)
  {
    hide Parse, Printable, Stands, DrainOf, Walked, Attributed, Render;
    text, drained, parts := "", [], [];
    ghost var all: seq<Token> := [];
    var count := 0;
    if bufSize > HEADER_ROOM {
      text := header + "\n";
      all := [Noise(header)];
    }
    ghost var head := text;
    NobodyYet(ns, header, bufSize);
    var i := 0;
    while i < |ns| && count < MAX_DRAINED
      invariant i == |parts| <= |ns| && count == |drained| <= MAX_DRAINED
      invariant Stands(ns, head, text, all, parts, drained, bufSize)
    {
      var n := ns[i];
      assert WellFormed(n);
      StandsRoom(ns, head, text, all, parts, drained, bufSize);
      if n.active && !n.isSelf {
        if bufSize - |text| < DRAIN_ROOM || n.late {
          break;
        }
        var out := DrainOf(n, bufSize - |text|);
        if out != "" {
          Brought(ns, head, text, all, parts, drained, bufSize, out);
          text, all, count := text + out, all + n.stream, count + 1;
          drained, parts := drained + [i], parts + [out];
        } else if bufSize - |text| > DIAG_ROOM {
          BroughtNothing(ns, head, text, all, parts, drained, bufSize);
          text, all, parts := text + (n.diag + "\n"), all + [Noise(n.diag)], parts + [n.diag + "\n"];
        }
      } else {
        PassedOver(ns, head, text, all, parts, drained, bufSize);
        parts := parts + [""];
      }
      i := i + 1;
    }
    StandsRoom(ns, head, text, all, parts, drained, bufSize);
    StandsSeen(ns, head, text, all, parts, drained, bufSize);
  }

  // ---- how it stands in between ----

  /** The text so far is what the neighbors so far have added, printed from these tokens. */
  ghost predicate Stands(ns: seq<Neighbor>, head: string, text: string, all: seq<Token>, parts: seq<string>,
                         drained: seq<nat>, bufSize: nat)
  {
    && Printed(text, all, bufSize) && text == head + Joined(parts)
    && Walked(ns, head, parts, drained, bufSize)
    && (forall k | 0 <= k < |drained| :: drained[k] < |ns|)
    && Pairs(all, "") == Attributed(ns, drained)
  }

  lemma StandsRoom(ns: seq<Neighbor>, head: string, text: string, all: seq<Token>, parts: seq<string>,
                   drained: seq<nat>, bufSize: nat)
    requires Stands(ns, head, text, all, parts, drained, bufSize)
    ensures |text| <= bufSize && text == head + Joined(parts) && Walked(ns, head, parts, drained, bufSize)
    ensures |parts| <= |ns| && |drained| <= 3
  {
    hide Pairs, Attributed, Render, Printable;
  }

  lemma StandsSeen(ns: seq<Neighbor>, head: string, text: string, all: seq<Token>, parts: seq<string>,
                   drained: seq<nat>, bufSize: nat)
    requires Stands(ns, head, text, all, parts, drained, bufSize)
    ensures forall k | 0 <= k < |drained| :: drained[k] < |ns| && ns[drained[k]].active && !ns[drained[k]].isSelf
    ensures Parse(text, "") <= Attributed(ns, drained)
    ensures bufSize - |text| >= 128 ==> Parse(text, "") == Attributed(ns, drained)
  {
    hide Parse, Printed, Attributed, Pairs;
    HostSees(ns, drained, text, all, bufSize);
    AllEligible(ns, head, parts, drained, bufSize);
  }

  lemma AllEligible(ns: seq<Neighbor>, head: string, parts: seq<string>, drained: seq<nat>, bufSize: nat)
    requires Walked(ns, head, parts, drained, bufSize)
    ensures forall k | 0 <= k < |drained| :: drained[k] < |ns| && ns[drained[k]].active && !ns[drained[k]].isSelf
  {
    hide DrainOf;
    forall k | 0 <= k < |drained|
      ensures drained[k] < |ns| && ns[drained[k]].active && !ns[drained[k]].isSelf
    {
      assert drained[k] in drained && BringsAt(ns, head, parts, drained[k], bufSize);
    }
  }

  lemma Brought(ns: seq<Neighbor>, head: string, text: string, all: seq<Token>, parts: seq<string>,
                drained: seq<nat>, bufSize: nat, out: string)
    requires Stands(ns, head, text, all, parts, drained, bufSize) && |parts| < |ns| && |drained| < 3
    requires var n := ns[|parts|];
             && WellFormed(n) && Eligible(n) && !n.late && |text| + 128 <= bufSize
             && out == DrainOf(n, bufSize - |text|) != ""
    ensures Stands(ns, head, text + out, all + ns[|parts|].stream, parts + [out], drained + [|parts|], bufSize)
  {
    var n := ns[|parts|];
    PossibleOutcome(n, bufSize - |text|);
    hide Walked, Printed, Pairs, Attributed, DrainOf, Joined, Render, Printable;
    PrintedMore(text, all, bufSize, n.stream, out);
    AttributedMore(ns, drained, |parts|, all);
    WalkedOn(ns, head, parts, drained, bufSize, out);
  }

  lemma BroughtNothing(ns: seq<Neighbor>, head: string, text: string, all: seq<Token>, parts: seq<string>,
                       drained: seq<nat>, bufSize: nat)
    requires Stands(ns, head, text, all, parts, drained, bufSize) && |parts| < |ns| && |drained| < 3
    requires var n := ns[|parts|];
             && WellFormed(n) && Eligible(n) && !n.late && |text| + 128 <= bufSize
             && DrainOf(n, bufSize - |text|) == ""
    ensures var line := ns[|parts|].diag + "\n";
            Stands(ns, head, text + line, all + [Noise(ns[|parts|].diag)], parts + [line], drained, bufSize)
  {
    var n := ns[|parts|];
    PrintedRoom(text, all, bufSize);
    hide Walked, Printed, Pairs, Attributed, DrainOf, Joined, Render, Printable;
    NoisePrinted(text, all, bufSize, n.diag);
    WalkedOn(ns, head, parts, drained, bufSize, n.diag + "\n");
    Appended(text, n.diag);
  }

  lemma PassedOver(ns: seq<Neighbor>, head: string, text: string, all: seq<Token>, parts: seq<string>,
                   drained: seq<nat>, bufSize: nat)
    requires Stands(ns, head, text, all, parts, drained, bufSize) && |parts| < |ns| && |drained| < 3
    requires !Eligible(ns[|parts|])
    ensures Stands(ns, head, text, all, parts + [""], drained, bufSize)
  {
    PrintedRoom(text, all, bufSize);
    hide Walked, Printed, Pairs, Attributed, DrainOf, Joined, Render, Printable;
    WalkedOn(ns, head, parts, drained, bufSize, "");
    assert text + "" == text;
  }

  lemma Appended(text: string, line: string)
    ensures text + line + "\n" == text + (line + "\n")
  {
  }

  lemma PossibleOutcome(n: Neighbor, room: nat)
    requires DrainOf(n, room) != ""
    ensures DrainBrings(Render(n.stream), DrainOf(n, room), room)
  {
  }

  lemma NobodyYet(ns: seq<Neighbor>, header: string, bufSize: nat)
    requires Printable(Noise(header)) && |header| < HEADER_ROOM
    ensures var head := Head(header, bufSize);
            Stands(ns, head, head, if bufSize > HEADER_ROOM then [Noise(header)] else [], [], [], bufSize)
  {
    hide Printable;
    NothingYet(ns, bufSize);
    assert Head(header, bufSize) + Joined([]) == Head(header, bufSize);
    if bufSize > HEADER_ROOM {
      NoisePrinted("", [], bufSize, header);
      assert "" + header + "\n" == header + "\n" && [] + [Noise(header)] == [Noise(header)];
    }
  }

  lemma NothingYet(ns: seq<Neighbor>, bufSize: nat)
    ensures Printed("", [], bufSize) && Render([]) == "" && Pairs([], "") == Attributed(ns, [])
  {
  }

  lemma PrintedRoom(text: string, all: seq<Token>, bufSize: nat)
    requires Printed(text, all, bufSize)
    ensures |text| <= bufSize && (bufSize - |text| >= DRAIN_ROOM ==> text == Render(all))
  {
  }
}
