/** The party-line scrollback: a fixed buffer shifted down when full (aether_9p_chat_log and its readers,
    dect_mesh/src/aether_9p.c) and the console's last-n-lines view of it (cmd_aether_chatlog,
    dect_mesh/src/main.c), against the whole history. */
module ChatLog {
  const SIZE := 1024
  const KEEP := 512
  const LINE := 96

  // ---- what is stored ----

  /** The text the log becomes when a line is added. */
  function Logged(text: string, line: string): string {
    if line == "" || |text| + |line| < SIZE then text + line
    else if |text| >= KEEP then text[|text| - KEEP..] + line
    else line
  }

  predicate IsSuffix(s: string, t: string) { |s| <= |t| && t[|t| - |s|..] == s }

  /** The stored text is the end of the history: all of it, or at least its newest half buffer. */
  predicate Refines(text: string, history: string) {
    |text| < 1024 && IsSuffix(text, history) && (text == history || |text| >= 512)
  }

  /** What the copy of `n` formatted characters out of the line buffer takes: a line that does not fit was cut
      and ended with a NUL, and what lies behind the line buffer comes along. */
  function Copied(line: string, beyond: string): (c: string)
    requires |beyond| >= |line|
    ensures |c| == |line|
  {
    if |line| < LINE then line else line[..LINE - 1] + "\0" + beyond[..|line| - LINE]
  }

  lemma SuffixGrows(s: string, t: string, more: string)
    requires IsSuffix(s, t)
    ensures IsSuffix(s + more, t + more)
  {
    assert (t + more)[|t| - |s|..] == t[|t| - |s|..] + more;
  }

  lemma SuffixDrops(s: string, t: string, n: nat)
    requires IsSuffix(s, t) && n <= |s|
    ensures IsSuffix(s[|s| - n..], t)
  {
    assert t[|t| - n..] == t[|t| - |s|..][|s| - n..];
  }

  lemma SuffixEnds(s: string, t: string, n: nat)
    requires n <= |s| && n <= |t|
    ensures IsSuffix(s, t) ==> s[|s| - n..] == t[|t| - n..]
    ensures IsSuffix(s, t) && |s| == |t| ==> s == t
  {
    assert t[0..] == t;
    if IsSuffix(s, t) {
      assert t[|t| - n..] == t[|t| - |s|..][|s| - n..];
    }
  }

  /** One line: the stored text keeps being the end of the history exactly when the formatted line, newline
      included, fits the line buffer with its terminator. */
  lemma LineKeepsHistory(text: string, history: string, line: string, beyond: string)
    requires Refines(text, history) && |beyond| >= |line| && '\0' !in line
    ensures Refines(Logged(text, Copied(line, beyond)), history + line) <==> |line| < 96
  {
    var c := Copied(line, beyond);
    var next := Logged(text, c);
    if |line| < LINE {
      if |text| + |line| >= SIZE {
        SuffixDrops(text, history, KEEP);
        SuffixGrows(text[|text| - KEEP..], history, line);
      } else {
        SuffixGrows(text, history, line);
      }
    } else {
      assert next[|next| - |line|..] == c && c[LINE - 1] == '\0' != line[LINE - 1];
      var all := history + line;
      assert all[|all| - |line|..] == line;
      SuffixEnds(next, all, |line|);
    }
  }

  function Join(lines: seq<string>): string {
    if lines == [] then "" else Join(lines[..|lines| - 1]) + lines[|lines| - 1]
  }

  function LoggedAll(lines: seq<string>): string {
    if lines == [] then "" else Logged(LoggedAll(lines[..|lines| - 1]), lines[|lines| - 1])
  }

  /** Over any run of lines that fit. */
  lemma {:induction false} RunRefines(lines: seq<string>)
    requires forall l | l in lines :: |l| < 96 && '\0' !in l
    ensures Refines(LoggedAll(lines), Join(lines))
  {
    if lines != [] {
      var init, line := lines[..|lines| - 1], lines[|lines| - 1];
      assert line in lines;
      RunRefines(init);
      hide Logged, Refines;
      LineKeepsHistory(LoggedAll(init), Join(init), line, line);
    }
  }

  // ---- the last n lines ----

  function Newlines(s: string): nat {
    if s == "" then 0 else (if s[0] == '\n' then 1 else 0) + Newlines(s[1..])
  }

  /** The longest end of a text with at most n newlines. */
  function Tail(text: string, n: nat): (t: string)
    ensures IsSuffix(t, text) && Newlines(t) <= n
    decreases |text|
  {
    if Newlines(text) <= n then text
    else
      var t := Tail(text[1..], n);
      assert text[|text| - |t|..] == text[1..][|text| - 1 - |t|..];
      t
  }

  lemma {:induction false} SuffixHasFewer(s: string, t: string)
    requires IsSuffix(s, t)
    ensures Newlines(s) <= Newlines(t)
    decreases |t|
  {
    if |s| < |t| {
      assert t[1..][|t| - 1 - |s|..] == t[|t| - |s|..];
      SuffixHasFewer(s, t[1..]);
    }
  }

  /** Longest indeed. */
  lemma {:induction false} TailIsLongest(text: string, n: nat, s: string)
    requires IsSuffix(s, text) && Newlines(s) <= n
    ensures |s| <= |Tail(text, n)|
    decreases |text|
  {
    if Newlines(text) > n {
      SuffixEnds(s, text, 0);
      assert text[1..][|text| - 1 - |s|..] == text[|text| - |s|..];
      TailIsLongest(text[1..], n, s);
    }
  }

  /** Whenever the stored text has more than n newlines, its last n lines are those of the whole history. */
  lemma {:induction false} LastLinesOfHistory(text: string, history: string, n: nat)
    requires IsSuffix(text, history) && Newlines(text) > n
    ensures Tail(history, n) == Tail(text, n)
    decreases |history|
  {
    SuffixHasFewer(text, history);
    if |text| == |history| {
      assert history[0..] == history;
    } else {
      assert history[1..][|history| - 1 - |text|..] == history[|history| - |text|..];
      LastLinesOfHistory(text, history[1..], n);
    }
  }

  // ---- in place ----

  class Log {
    const buf: array<char>
    var len: nat

    ghost function Text(): string
      reads this, buf
      requires len <= buf.Length
    {
      buf[..len]
    }

    ghost predicate Valid()
      reads this
    {
      buf.Length == SIZE && len <= SIZE
    }

    constructor ()
      ensures Valid() && Text() == ""
    {
      buf := new char[SIZE](_ => '\0');
      len := 0;
    }

    /** aether_9p_chat_log from the formatted line on: into the room left, or into the half that the shift frees.
        It stays inside the buffer if and only if one of the two holds the line; nothing is defined after the
        first access that does not. */
    method Append(line: string, beyond: string) returns (inside: bool)
      requires Valid() && |beyond| >= |line|
      modifies this, buf
      ensures inside <==> line == "" || old(len) + |line| < 1024 || (old(len) >= 512 && |line| <= 512)
      ensures inside ==> Valid() && Text() == Logged(old(Text()), Copied(line, beyond))
    {
      var c, n := Copied(line, beyond), |line|;
      if n == 0 {
        assert Text() + c == Text();
        return true;
      }
      if len + n >= SIZE {
        if len < KEEP {
          return false;
        }
        KeepNewest();
      }
      if len + n > SIZE {
        return false;
      }
      CopyIn(c);
      inside := true;
    }

    /** The memmove of the newest half to the front. */
    method KeepNewest()
      requires Valid() && len >= KEEP
      modifies this, buf
      ensures Valid() && len == KEEP && Text() == old(Text())[old(len) - KEEP..]
    {
      var from := len - KEEP;
      forall i | 0 <= i < KEEP {
        buf[i] := buf[from + i];
      }
      len := KEEP;
    }

    /** The memcpy of the line behind the text. */
    method CopyIn(c: string)
      requires Valid() && len + |c| <= SIZE
      modifies this, buf
      ensures Valid() && Text() == old(Text()) + c
    {
      forall i | 0 <= i < |c| {
        buf[len + i] := c[i];
      }
      len := len + |c|;
    }

    /** aether_9p_chat_log_snapshot. */
    method Snapshot(out: array<char>) returns (n: nat)
      requires Valid() && out != buf
      modifies out
      ensures n == (if len < out.Length then len else out.Length) && out[..n] == Text()[..n]
    {
      n := if len < out.Length then len else out.Length;
      forall i | 0 <= i < n {
        out[i] := buf[i];
      }
    }

    /** gen_chat: one read of the file. */
    method Read(out: array<char>, offset: nat) returns (r: nat)
      requires Valid() && out != buf
      modifies out
      ensures r <= out.Length && (r == 0 <==> offset >= len || out.Length == 0)
      ensures offset <= len ==> r == (if len - offset < out.Length then len - offset else out.Length)
                                && out[..r] == Text()[offset..offset + r]
    {
      if offset >= len {
        r := 0;
        assert offset == len ==> Text()[offset..offset + r] == out[..r];
        return;
      }
      r := if len - offset < out.Length then len - offset else out.Length;
      forall i | 0 <= i < r {
        out[i] := buf[offset + i];
      }
      assert out[..r] == buf[offset..offset + r] == Text()[offset..offset + r];
    }
  }

  /** The backward scan of cmd_aether_chatlog; without an argument everything is shown. */
  method LastLines(snap: string, n: int) returns (shown: string)
    ensures n < 0 ==> shown == snap
    ensures n >= 0 ==> shown == Tail(snap, n)
  {
    if n < 0 {
      return snap;
    }
    var p: nat, count: nat := |snap|, 0;
    while p > 0
      invariant p <= |snap| && count == Newlines(snap[p..]) <= n
    {
      p := p - 1;
      assert snap[p..][1..] == snap[p + 1..];
      if snap[p] == '\n' {
        count := count + 1;
        if count > n {
          TailStarts(snap, p + 1, n);
          return snap[p + 1..];
        }
      }
    }
    assert snap[0..] == snap;
    return snap;
  }

  /** Where the newlines after p number at most n, and one more precedes them. */
  lemma {:induction false} TailStarts(text: string, p: nat, n: nat)
    requires 0 < p <= |text| && Newlines(text[p..]) <= n < Newlines(text[p - 1..])
    ensures Tail(text, n) == text[p..]
    decreases p
  {
    assert text[0..] == text && text[1..][p - 1..] == text[p..];
    SuffixHasFewer(text[p - 1..], text);
    if p > 1 {
      assert text[1..][p - 2..] == text[p - 1..];
      TailStarts(text[1..], p - 1, n);
    }
  }
}
