/** The /net/aether root directory as the linked sibling list of dect_mesh/src/aether_net.c:
    six fixed files, plus one directory per conversation in use, spliced in and out in place. */
module Namespace {
  import opened Wire
  import opened Conversation

  class FsNode {
    const name: string
    const isConvDir: bool
    var parent: FsNode?
    var children: FsNode?
    var next: FsNode?

    constructor (name: string, isConvDir: bool)
      ensures this.name == name && this.isConvDir == isConvDir
      ensures parent == null && children == null && next == null
    {
      this.name, this.isConvDir := name, isConvDir;
      parent, children, next := null, null, null;
    }
  }

  const STATIC_NAMES := ["clone", "status", "addr", "stats", "maxmsg", "prove"]
  const SLOT_NAMES := ["0", "1", "2", "3"]

  ghost predicate NoDup(l: seq<FsNode>) { forall i, j | 0 <= i < j < |l| :: l[i] != l[j] }

  ghost function NodeAt(l: seq<FsNode>, k: nat): FsNode? { if k < |l| then l[k] else null }

  /** The list the head and the next links spell out is exactly l (so it ends). */
  ghost predicate Chain(head: FsNode?, l: seq<FsNode>)
    reads l
  {
    && head == NodeAt(l, 0)
    && forall k | 0 <= k < |l| :: l[k].next == NodeAt(l, k + 1)
  }

  lemma WithoutOne(l: seq<FsNode>, i: nat)
    requires NoDup(l) && i < |l|
    ensures NoDup(l[..i] + l[i + 1..])
    ensures forall n :: n in l[..i] + l[i + 1..] <==> n in l && n != l[i]
  {
    var w := l[..i] + l[i + 1..];
    forall k | 0 <= k < |w|
      ensures w[k] == l[if k < i then k else k + 1] && w[k] != l[i]
    {
    }
    forall n | n in l && n != l[i]
      ensures n in w
    {
      var k :| 0 <= k < |l| && l[k] == n;
      assert w[if k < i then k else k - 1] == n;
    }
  }

  ghost function DirCount(l: seq<FsNode>): nat {
    if l == [] then 0 else (if l[0].isConvDir then 1 else 0) + DirCount(l[1..])
  }

  lemma {:induction false} DirCountSplit(l: seq<FsNode>, i: nat)
    requires i < |l|
    ensures DirCount(l) == DirCount(l[..i] + l[i + 1..]) + if l[i].isConvDir then 1 else 0
  {
    if i == 0 {
      assert l[..0] + l[1..] == l[1..];
    } else {
      DirCountSplit(l[1..], i - 1);
      assert (l[..i] + l[i + 1..])[1..] == l[1..][..i - 1] + l[1..][i..];
    }
  }

  lemma EmptyChain()
    ensures Chain(null, []) && DirCount([]) == 0
  {
  }

  lemma NotListedYet(statics: seq<FsNode>, dirs: seq<FsNode>, listed: seq<FsNode>, i: nat)
    requires NoDup(statics + dirs) && i < |statics|
    requires |listed| == i && forall k | 0 <= k < i :: listed[k] == statics[i - 1 - k]
    ensures statics[i] !in listed
  {
    assert statics[i] == (statics + dirs)[i];
    forall k | 0 <= k < i
      ensures listed[k] != statics[i]
    {
      assert listed[k] == (statics + dirs)[i - 1 - k];
    }
  }

  lemma AllListed(statics: seq<FsNode>, dirs: seq<FsNode>, listed: seq<FsNode>)
    requires NoDup(statics + dirs) && |listed| == |statics|
    requires forall k | 0 <= k < |statics| :: listed[k] == statics[|statics| - 1 - k]
    ensures NoDup(listed) && (forall n | n in statics :: n in listed) && forall n | n in dirs :: n !in listed
  {
    var all, last := statics + dirs, |statics| - 1;
    assert forall k | 0 <= k < |statics| :: listed[k] == all[last - k];
    assert forall k | 0 <= k < |statics| :: statics[k] == listed[last - k];
    assert forall k | 0 <= k < |dirs| :: dirs[k] == all[|statics| + k];
  }

  method MakeNodes(names: seq<string>, isConvDir: bool) returns (nodes: seq<FsNode>)
    ensures |nodes| == |names| && NoDup(nodes) && fresh(set n | n in nodes)
    ensures forall k | 0 <= k < |names| :: nodes[k].name == names[k] && nodes[k].isConvDir == isConvDir
  {
    nodes := [];
    while |nodes| < |names|
      invariant |nodes| <= |names| && NoDup(nodes) && fresh(set n | n in nodes)
      invariant forall k | 0 <= k < |nodes| :: nodes[k].name == names[k] && nodes[k].isConvDir == isConvDir
    {
      var n := new FsNode(names[|nodes|], isConvDir);
      nodes := nodes + [n];
    }
  }

  class Root {
    const root: FsNode
    const statics: seq<FsNode>
    const dirs: seq<FsNode>
    ghost var listed: seq<FsNode>

    ghost function Nodes(): set<FsNode> { {root} + (set n | n in statics) + (set n | n in dirs) }

    ghost predicate Fixed() {
      && |statics| == |STATIC_NAMES| && |dirs| == MAX_CONNS
      && NoDup(statics + dirs) && root !in statics + dirs
      && (forall i | 0 <= i < |statics| :: statics[i].name == STATIC_NAMES[i] && !statics[i].isConvDir)
      && (forall i | 0 <= i < |dirs| :: dirs[i].name == SLOT_NAMES[i] && dirs[i].isConvDir)
    }

    ghost predicate Valid()
      reads this, Nodes()
      ensures Valid() ==> Fixed()
    {
      && Fixed()
      && NoDup(listed)
      && (forall n | n in listed :: n in Nodes() && n in statics + dirs && n.parent == root)
      && (forall n | n in statics :: n in listed)
      && Chain(root.children, listed)
    }

    constructor ()
      ensures Valid() && fresh(Nodes())
      ensures forall n | n in dirs :: n !in listed
      ensures DirCount(listed) == 0
    {
      var r := new FsNode("/", false);
      var files := MakeNodes(STATIC_NAMES, false);
      var convDirs := MakeNodes(SLOT_NAMES, true);
      root, statics, dirs := r, files, convDirs;
      listed := [];
      new;
      assert Fixed();
      LinkStatics();
    }

    method LinkStatics()
      requires Fixed() && listed == [] && root.children == null
      modifies this`listed, Nodes()
      ensures Valid() && DirCount(listed) == 0
      ensures forall n | n in dirs :: n !in listed
    {
      hide Chain, DirCount, NoDup;
      EmptyChain();
      var i := 0;
      while i < |statics|
        invariant 0 <= i <= |statics|
        invariant |listed| == i && forall k | 0 <= k < i :: listed[k] == statics[i - 1 - k]
        invariant forall n | n in listed :: n in statics && n.parent == root
        invariant Chain(root.children, listed) && DirCount(listed) == 0
      {
        NotListedYet(statics, dirs, listed, i);
        LinkChild(statics[i]);
        i := i + 1;
      }
      AllListed(statics, dirs, listed);
    }

    /** link_child: in front of the parent's list. */
    method LinkChild(child: FsNode)
      requires Fixed() && Chain(root.children, listed)
      requires child in statics + dirs && child !in listed
      requires forall n | n in listed :: n in statics + dirs
      modifies this`listed, root`children, child`parent, child`next
      ensures listed == [child] + old(listed)
      ensures child.parent == root && Chain(root.children, listed)
      ensures DirCount(listed) == old(DirCount(listed)) + if child.isConvDir then 1 else 0
    {
      child.parent := root;
      child.next := root.children;
      root.children := child;
      listed := [child] + listed;
      assert listed[1..] == old(listed);
      forall k | 0 <= k < |listed|
        ensures listed[k].next == NodeAt(listed, k + 1)
      {
        if k > 0 {
          assert listed[k] == old(listed)[k - 1] && listed[k] in old(listed);
        }
      }
    }

    lemma Links()
      requires Valid()
      ensures Chain(root.children, listed) && NoDup(listed)
    {
    }

    /** A conversation's directory joins the root. */
    method LinkDir(i: nat)
      requires Valid() && i < MAX_CONNS && dirs[i] !in listed
      modifies this`listed, Nodes()
      ensures Valid() && listed == [dirs[i]] + old(listed)
      ensures DirCount(listed) == old(DirCount(listed)) + 1
    {
      LinkChild(dirs[i]);
      forall n | n in listed
        ensures n in Nodes() && n in statics + dirs && n.parent == root
      {
        assert n == dirs[i] || n in old(listed);
      }
    }

    /** A conversation's directory leaves the root; all else stays. */
    method UnlinkDir(i: nat)
      requires Valid() && i < MAX_CONNS && dirs[i] in listed
      modifies this`listed, Nodes()
      ensures Valid() && forall n :: n in listed <==> n in old(listed) && n != dirs[i]
      ensures DirCount(listed) == old(DirCount(listed)) - 1
    {
      UnlinkChild(dirs[i]);
      forall k | 0 <= k < |statics|
        ensures statics[k] in listed
      {
        assert statics[k] == (statics + dirs)[k] && dirs[i] == (statics + dirs)[|statics| + i];
        assert statics[k] in old(listed) && statics[k] != dirs[i];
      }
    }

    lemma DirsDistinct()
      requires Valid()
      ensures NoDup(dirs) && |dirs| == MAX_CONNS
    {
      assert forall i | 0 <= i < |dirs| :: dirs[i] == (statics + dirs)[|statics| + i];
    }

    /** Points whatever pointed at the child at its successor, and clears the child's own link. */
    method Bypass(prev: FsNode?, child: FsNode, ghost i: nat)
      requires NoDup(listed) && Chain(root.children, listed) && i < |listed| && listed[i] == child
      requires prev == if i == 0 then null else listed[i - 1]
      modifies this`listed, root`children, child`next, (set n | n in listed)`next
      ensures listed == old(listed[..i] + listed[i + 1..]) && child.next == null
      ensures Chain(root.children, listed)
    {
      ghost var l, rest := listed, child.next;
      assert l[i] == child && rest == NodeAt(l, i + 1);
      if prev == null {
        root.children := child.next;
      } else {
        prev.next := child.next;
      }
      child.next := null;
      listed := l[..i] + l[i + 1..];
      assert i > 0 ==> l[i - 1].next == rest;
      assert forall j | 0 <= j < |l| && j != i && j != i - 1 :: l[j].next == NodeAt(l, j + 1);
    }

    /** unlink_child: follow the link that points at the child and bypass it; a child that is not in the list
        leaves it as it was. */
    method UnlinkChild(child: FsNode)
      requires Valid()
      modifies this`listed, root`children, child`next, (set n | n in listed)`next
      ensures child.next == if child in old(listed) then null else old(child.next)
      ensures NoDup(listed) && Chain(root.children, listed)
      ensures child !in old(listed) ==> listed == old(listed)
      ensures forall n :: n in listed <==> n in old(listed) && n != child
      ensures DirCount(listed) == old(DirCount(listed)) - if child in old(listed) && child.isConvDir then 1 else 0
    {
      hide Root.Valid;
      Links();
      var prev: FsNode?, cur := null, root.children;
      ghost var i := 0;
      while cur != null
        invariant 0 <= i <= |listed|
        invariant cur == NodeAt(listed, i)
        invariant prev == (if i == 0 then null else listed[i - 1])
        invariant child !in listed[..i]
        decreases |listed| - i
      {
        if cur == child {
          break;
        }
        prev, cur := cur, cur.next;
        i := i + 1;
      }
      if cur != null {
        DirCountSplit(listed, i);
        WithoutOne(listed, i);
        Bypass(prev, child, i);
      } else {
        assert listed[..i] == listed;
      }
    }

    /** The sibling search of anet_walk (the name is looked up, nothing is allocated). */
    method Lookup(name: string) returns (r: FsNode?)
      requires Valid()
      ensures r != null ==> r in listed && r.name == name
      ensures r == null ==> forall n | n in listed :: n.name != name
    {
      r := root.children;
      ghost var i := 0;
      while r != null
        invariant 0 <= i <= |listed|
        invariant r == NodeAt(listed, i)
        invariant forall k | 0 <= k < i :: listed[k].name != name
        decreases |listed| - i
      {
        if r.name == name {
          return;
        }
        r := r.next;
        i := i + 1;
      }
    }

    /** read_dir: the entries from byte `offset` on, as many whole ones as fit in `count`, or an error when the
        scan meets one it cannot write. `dirent` stands for the stat record the 9P library writes for a name
        into the scratch buffer, None when it does not fit. */
    method ReadDir(offset: nat, count: nat, dirent: string -> Option<Bytes>) returns (out: Option<Bytes>)
      requires Valid()
      ensures out == ScanPage(Entries(listed, dirent), 0, offset, count)
    {
      hide Root.Valid, NoDup;
      Links();
      var ch: FsNode?, pos: nat := root.children, 0;
      var page: Bytes := [];
      ghost var i := 0;
      assert listed[0..] == listed;
      PrependNothing([], ScanPage(Entries(listed, dirent), 0, offset, count));
      while ch != null
        invariant 0 <= i <= |listed| && |page| <= count
        invariant ch == NodeAt(listed, i)
        invariant Prepended(page, ScanPage(Entries(listed[i..], dirent), pos, offset, count - |page|))
               == ScanPage(Entries(listed, dirent), 0, offset, count)
        decreases |listed| - i
      {
        var record := dirent(ch.name);
        assert listed[i..][0] == ch && listed[i..][1..] == listed[i + 1..];
        assert Entries(listed[i..], dirent)[1..] == Entries(listed[i + 1..], dirent);
        if record.None? {
          return None;
        }
        var e := record.value;
        if pos >= offset {
          if |page| + |e| > count {
            PrependNothing(page, Some([]));
            return Some(page);
          }
          PrependTwice(page, e, ScanPage(Entries(listed[i + 1..], dirent), pos + |e|, offset, count - |page| - |e|));
          page := page + e;
        }
        pos := pos + |e|;
        ch := ch.next;
        i := i + 1;
      }
      assert listed[i..] == [];
      PrependNothing(page, Some([]));
      return Some(page);
    }
  }

  ghost function Entries(l: seq<FsNode>, dirent: string -> Option<Bytes>): (es: seq<Option<Bytes>>)
    ensures |es| == |l|
  {
    if l == [] then [] else [dirent(l[0].name)] + Entries(l[1..], dirent)
  }

  function Prepended(a: Bytes, b: Option<Bytes>): Option<Bytes> { if b.None? then None else Some(a + b.value) }

  lemma PrependNothing(a: Bytes, b: Option<Bytes>)
    ensures Prepended([], b) == b && Prepended(a, Some([])) == Some(a)
  {
    assert a + [] == a;
    if b.Some? {
      assert [] + b.value == b.value;
    }
  }

  lemma PrependTwice(a: Bytes, b: Bytes, c: Option<Bytes>)
    ensures Prepended(a, Prepended(b, c)) == Prepended(a + b, c)
  {
    if c.Some? {
      Associates(a, b, c.value);
    }
  }

  /** What one scan of the directory returns: an error when it meets a record it cannot write. */
  function ScanPage(records: seq<Option<Bytes>>, pos: nat, offset: nat, room: nat): Option<Bytes> {
    if records == [] then Some([])
    else match records[0]
      case None => None
      case Some(e) =>
        if pos < offset then ScanPage(records[1..], pos + |e|, offset, room)
        else if |e| > room then Some([])
        else Prepended(e, ScanPage(records[1..], pos + |e|, offset, room - |e|))
  }

  predicate AllFit(records: seq<Option<Bytes>>) { forall r | r in records :: r.Some? }

  function Values(records: seq<Option<Bytes>>): seq<Bytes>
    requires AllFit(records)
  {
    if records == [] then [] else [records[0].value] + Values(records[1..])
  }

  /** When every record fits, the scan is the page the paging theorem is about. */
  lemma {:induction false} ScanIsPage(records: seq<Option<Bytes>>, pos: nat, offset: nat, room: nat)
    requires AllFit(records)
    ensures ScanPage(records, pos, offset, room) == Some(Page(Values(records), pos, offset, room))
  {
    if records != [] {
      var e := records[0].value;
      assert Values(records)[1..] == Values(records[1..]);
      if pos < offset {
        ScanIsPage(records[1..], pos + |e|, offset, room);
      } else if |e| <= room {
        ScanIsPage(records[1..], pos + |e|, offset, room - |e|);
      }
    }
  }

  /** A slot's name is listed exactly when its directory is. */
  lemma SlotNameListed(r: Root, i: nat)
    requires r.Valid() && i < MAX_CONNS
    ensures (exists n :: n in r.listed && n.name == SLOT_NAMES[i]) <==> r.dirs[i] in r.listed
  {
    hide Chain, NoDup, DirCount;
    if n :| n in r.listed && n.name == SLOT_NAMES[i] {
      SlotNameFindsOnlyItsDir(r, n, i);
    }
  }

  /** A name picks out at most one node of the root directory. */
  lemma SlotNameFindsOnlyItsDir(r: Root, n: FsNode, i: nat)
    requires r.Fixed() && n in r.statics + r.dirs && i < MAX_CONNS && n.name == SLOT_NAMES[i]
    ensures n == r.dirs[i]
  {
    assert forall k | 0 <= k < |STATIC_NAMES| :: |STATIC_NAMES[k]| > 1;
    assert n !in r.statics;
    var k :| 0 <= k < |r.dirs| && r.dirs[k] == n;
    assert SLOT_NAMES[k][0] == SLOT_NAMES[i][0];
  }

  // ---- directory paging (read(5) in section 5 of the Plan 9 manual) ----

  /** What one read returns: entries starting at or after `offset`, while they fit. */
  function Page(entries: seq<Bytes>, pos: nat, offset: nat, room: nat): Bytes {
    if entries == [] then []
    else if pos < offset then Page(entries[1..], pos + |entries[0]|, offset, room)
    else if |entries[0]| > room then []
    else entries[0] + Page(entries[1..], pos + |entries[0]|, offset, room - |entries[0]|)
  }

  function Flat(entries: seq<Bytes>): Bytes {
    if entries == [] then [] else entries[0] + Flat(entries[1..])
  }

  /** A reader that starts each read where the last one ended and stops at an empty one. */
  function ReadThrough(entries: seq<Bytes>, offset: nat, count: nat, limit: nat): seq<Bytes>
    decreases limit
  {
    var page := Page(entries, 0, offset, count);
    if page == [] || limit == 0 then [] else [page] + ReadThrough(entries, offset + |page|, count, limit - 1)
  }

  lemma {:induction false} SkipToEntry(before: seq<Bytes>, entries: seq<Bytes>, pos: nat, room: nat)
    requires forall e | e in before :: e != []
    ensures var at := pos + |Flat(before)|; Page(before + entries, pos, at, room) == Page(entries, at, at, room)
  {
    if before == [] {
      assert before + entries == entries;
    } else {
      assert (before + entries)[1..] == before[1..] + entries;
      assert before[0] in before && forall e | e in before[1..] :: e in before;
      SkipToEntry(before[1..], entries, pos + |before[0]|, room);
    }
  }

  lemma {:induction false} PageIsWhole(entries: seq<Bytes>, pos: nat, offset: nat, room: nat) returns (m: nat)
    requires offset <= pos
    ensures m <= |entries| && Page(entries, pos, offset, room) == Flat(entries[..m])
    ensures entries != [] && |entries[0]| <= room ==> m > 0
  {
    if entries == [] || |entries[0]| > room {
      m := 0;
    } else {
      var k := PageIsWhole(entries[1..], pos + |entries[0]|, offset, room - |entries[0]|);
      m := k + 1;
      assert entries[..m][1..] == entries[1..][..k];
    }
  }

  lemma Associates(a: Bytes, b: Bytes, c: Bytes)
    ensures (a + b) + c == a + (b + c)
  {
  }

  lemma {:induction false} FlatAppend(p: seq<Bytes>, q: seq<Bytes>)
    ensures Flat(p + q) == Flat(p) + Flat(q)
  {
    if p == [] {
      assert p + q == q;
    } else {
      FlatAppend(p[1..], q);
      assert (p + q)[0] == p[0] && (p + q)[1..] == p[1..] + q;
      Associates(p[0], Flat(p[1..]), Flat(q));
    }
  }

  /** A read from an entry boundary returns a run of whole entries, non-empty unless none is left. */
  lemma PageFromBoundary(entries: seq<Bytes>, k: nat, count: nat) returns (m: nat)
    requires k <= |entries|
    requires forall e | e in entries :: 0 < |e| <= count
    ensures k <= m <= |entries| && (k < |entries| ==> k < m)
    ensures Page(entries, 0, |Flat(entries[..k])|, count) == Flat(entries[k..m])
    ensures |Flat(entries[..k])| + |Flat(entries[k..m])| == |Flat(entries[..m])|
    ensures k < m ==> Flat(entries[k..m]) != []
  {
    hide Page, Flat;
    var at := |Flat(entries[..k])|;
    assert entries == entries[..k] + entries[k..];
    SkipToEntry(entries[..k], entries[k..], 0, count);
    var n := PageIsWhole(entries[k..], at, at, count);
    m := k + n;
    assert entries[k..][..n] == entries[k..m];
    assert entries[..m] == entries[..k] + entries[k..m];
    FlatAppend(entries[..k], entries[k..m]);
    if k < m {
      assert entries[k] in entries;
      NotFlat(entries[k..m]);
    }
  }

  lemma NotFlat(entries: seq<Bytes>)
    requires entries != [] && entries[0] != []
    ensures Flat(entries) != []
  {
  }

  /** Every page is a run of whole entries. */
  predicate WholePages(pages: seq<Bytes>, entries: seq<Bytes>) {
    forall p | p in pages :: exists a, b :: 0 <= a < b <= |entries| && p == Flat(entries[a..b])
  }

  lemma FlatCons(page: Bytes, rest: seq<Bytes>)
    ensures Flat([page] + rest) == page + Flat(rest)
  {
    assert ([page] + rest)[1..] == rest;
  }

  lemma OneMorePage(entries: seq<Bytes>, a: nat, b: nat, rest: seq<Bytes>)
    requires a < b <= |entries| && WholePages(rest, entries)
    ensures WholePages([Flat(entries[a..b])] + rest, entries)
  {
    hide Flat;
  }

  lemma NothingBehind(entries: seq<Bytes>, count: nat)
    requires forall e | e in entries :: 0 < |e| <= count
    ensures Page(entries, 0, |Flat(entries)|, count) == []
  {
    var m := PageFromBoundary(entries, |entries|, count);
    assert entries[..|entries|] == entries && entries[|entries|..m] == [];
  }

  lemma ReadOn(entries: seq<Bytes>, at: nat, count: nat, limit: nat, page: Bytes)
    requires page == Page(entries, 0, at, count)
    ensures ReadThrough(entries, at, count, limit)
         == if page == [] || limit == 0 then [] else [page] + ReadThrough(entries, at + |page|, count, limit - 1)
  {
    hide Page;
  }

  lemma ReadNoMore(entries: seq<Bytes>, count: nat, limit: nat)
    requires forall e | e in entries :: 0 < |e| <= count
    ensures ReadThrough(entries, |Flat(entries)|, count, limit) == []
  {
    hide Page;
    NothingBehind(entries, count);
  }

  /** Reading on from any entry boundary returns the remaining entries, each once, whole and in order
      (every page a run of whole entries), and then an empty page. */
  lemma {:induction false} PagingReturnsEveryEntryOnce(entries: seq<Bytes>, k: nat, count: nat, limit: nat)
    requires k <= |entries| && limit >= |entries| - k
    requires forall e | e in entries :: 0 < |e| <= count
    ensures Flat(ReadThrough(entries, |Flat(entries[..k])|, count, limit)) == Flat(entries[k..])
    ensures WholePages(ReadThrough(entries, |Flat(entries[..k])|, count, limit), entries)
    ensures Page(entries, 0, |Flat(entries)|, count) == []
    decreases |entries| - k
  {
    NothingBehind(entries, count);
    hide ReadThrough, Page, Flat, WholePages;
    if k == |entries| {
      ReadNoMore(entries, count, limit);
      assert entries[..k] == entries;
      NoPages(entries);
    } else {
      var m := PageFromBoundary(entries, k, count);
      PagingReturnsEveryEntryOnce(entries, m, count, limit - 1);
      OnePage(entries, k, m, count, limit);
    }
  }

  lemma OnePage(entries: seq<Bytes>, k: nat, m: nat, count: nat, limit: nat)
    requires k < m <= |entries| && limit > 0
    requires Page(entries, 0, |Flat(entries[..k])|, count) == Flat(entries[k..m]) != []
    requires |Flat(entries[..k])| + |Flat(entries[k..m])| == |Flat(entries[..m])|
    requires var rest := ReadThrough(entries, |Flat(entries[..m])|, count, limit - 1);
             Flat(rest) == Flat(entries[m..]) && WholePages(rest, entries)
    ensures var pages := ReadThrough(entries, |Flat(entries[..k])|, count, limit);
            Flat(pages) == Flat(entries[k..]) && WholePages(pages, entries)
  {
    hide ReadThrough, Page, Flat, WholePages;
    var page, rest := Flat(entries[k..m]), ReadThrough(entries, |Flat(entries[..m])|, count, limit - 1);
    ReadOn(entries, |Flat(entries[..k])|, count, limit, page);
    FlatCons(page, rest);
    FlatFrom(entries, k, m);
    OneMorePage(entries, k, m, rest);
  }

  lemma NoPages(entries: seq<Bytes>)
    ensures Flat([]) == [] && Flat(entries[|entries|..]) == [] && WholePages([], entries)
  {
  }

  lemma FlatFrom(entries: seq<Bytes>, k: nat, m: nat)
    requires k <= m <= |entries|
    ensures Flat(entries[k..]) == Flat(entries[k..m]) + Flat(entries[m..])
  {
    assert entries[k..] == entries[k..m] + entries[m..];
    FlatAppend(entries[k..m], entries[m..]);
  }

  // ---- a record that cannot be written ----

  lemma {:induction false} ScanMeets(records: seq<Option<Bytes>>, u: nat, pos: nat, offset: nat, room: nat)
    requires u < |records| && records[u].None? && AllFit(records[..u]) && pos >= offset
    ensures ScanPage(records, pos, offset, room).None? <==> |Flat(Values(records[..u]))| <= room
    decreases u
  {
    if u > 0 {
      var e, rest := records[0].value, records[1..];
      assert records[..u][1..] == rest[..u - 1] && records[0] == records[..u][0];
      assert Values(records[..u])[1..] == Values(rest[..u - 1]);
      if |e| <= room {
        ScanMeets(rest, u - 1, pos + |e|, offset, room - |e|);
      }
    } else {
      assert records[..0] == [];
    }
  }

  lemma {:induction false} ScanSkips(records: seq<Option<Bytes>>, k: nat, pos: nat, offset: nat, room: nat)
    requires k <= |records| && AllFit(records[..k]) && offset == pos + |Flat(Values(records[..k]))|
    requires forall r | r in records[..k] :: r.value != []
    ensures ScanPage(records, pos, offset, room) == ScanPage(records[k..], offset, offset, room)
    decreases k
  {
    if k == 0 {
      assert records[..0] == [] && records[0..] == records;
    } else {
      var rest := records[1..];
      assert records[..k][1..] == rest[..k - 1] && rest[k - 1..] == records[k..] && records[0] == records[..k][0];
      assert Values(records[..k])[1..] == Values(rest[..k - 1]);
      assert records[..k][0].value != [];
      ScanSkips(rest, k - 1, pos + |records[0].value|, offset, room);
    }
  }

  lemma PartsFit(records: seq<Option<Bytes>>, k: nat, u: nat)
    requires k <= u <= |records| && AllFit(records[..u])
    ensures AllFit(records[..k]) && AllFit(records[k..][..u - k])
  {
    assert forall r | r in records[..k] :: r in records[..u];
    forall r | r in records[k..][..u - k]
      ensures r in records[..u]
    {
      var j :| 0 <= j < u - k && records[k..][..u - k][j] == r;
      assert records[..u][k + j] == r;
    }
  }

  /** A read from an entry boundary is an error if and only if it gets to the first record that cannot be written:
      the entries before that one all fit. */
  lemma ScanFailsExactly(records: seq<Option<Bytes>>, k: nat, u: nat, room: nat)
    requires k <= u < |records| && records[u].None? && AllFit(records[..u])
    requires forall r | r in records[..u] :: r.value != []
    ensures AllFit(records[..k]) && AllFit(records[k..][..u - k])
    ensures ScanPage(records, 0, |Flat(Values(records[..k]))|, room).None?
            <==> |Flat(Values(records[k..][..u - k]))| <= room
  {
    PartsFit(records, k, u);
    assert forall r | r in records[..k] :: r in records[..u];
    var offset := |Flat(Values(records[..k]))|;
    hide ScanPage, Flat, Values;
    ScanSkips(records, k, 0, offset, room);
    assert records[k..][u - k] == records[u];
    ScanMeets(records[k..], u - k, offset, offset, room);
  }
}
