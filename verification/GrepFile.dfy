/** grep's loop over a file (grep.c): lines are cut out of a 1024-byte buffer that read
    fills in pieces of any size. */
module GrepFile {
  import opened Regex

  const BUFSIZE := 1024

  predicate Plain(c: char) {
    c != '\n' && c != '\0'
  }

  // Where strchr looking for a newline stops: at the first newline or NUL of s, or |s|.
  function LineEnd(s: string): (k: nat)
    ensures k <= |s| && (forall i :: 0 <= i < k ==> Plain(s[i])) && (k < |s| ==> !Plain(s[k]))
  {
    if s == "" || !Plain(s[0]) then 0 else 1 + LineEnd(s[1..])
  }

  // Whether a whole line comes first in s, and how long it is.
  predicate HasLine(s: string, k: nat) {
    k < |s| && s[k] == '\n' && k == LineEnd(s)
  }

  /** The lines of s, newline-ended, that the pattern matches. */
  ghost function Selected(re: string, s: string): string
    decreases |s|
  {
    var k := LineEnd(s);
    if !HasLine(s, k) then "" else (if Matches(re, s[..k]) then s[..k + 1] else "") + Selected(re, s[k + 1..])
  }

  // The whole lines of s up to the first that is too long for the buffer or has a NUL in it.
  function Readable(s: string): (r: string)
    ensures r <= s
    decreases |s|
  {
    var k := LineEnd(s);
    if !HasLine(s, k) || k >= BUFSIZE - 1 then ""
    else
      assert s == s[..k + 1] + s[k + 1..];
      s[..k + 1] + Readable(s[k + 1..])
  }

  // What grep prints from here on, when s is what is buffered and still to come.
  ghost function Printed(re: string, s: string): string {
    Selected(re, Readable(s))
  }

  lemma LineEndOf(s: string, k: nat)
    requires k <= |s| && (forall i :: 0 <= i < k ==> Plain(s[i])) && (k < |s| ==> !Plain(s[k]))
    ensures LineEnd(s) == k
  {
  }

  ghost predicate AllPlain(s: string) {
    forall i :: 0 <= i < |s| ==> Plain(s[i])
  }

  lemma FirstLine(line: string, rest: string)
    requires AllPlain(line)
    ensures var s := line + "\n" + rest;
            HasLine(s, |line|) && s[..|line|] == line && s[..|line| + 1] == line + "\n" && s[|line| + 1..] == rest
  {
    var s := line + "\n" + rest;
    assert s[..|line|] == line;
    LineEndOf(s, |line|);
  }

  // A whole line at the front that fits is printed if it matches.
  lemma PrintedLine(re: string, line: string, rest: string)
    requires |line| < BUFSIZE - 1 && AllPlain(line)
    ensures Printed(re, line + "\n" + rest) == (if Matches(re, line) then line + "\n" else "") + Printed(re, rest)
  {
    FirstLine(line, rest);
    FirstLine(line, Readable(rest));
    assert Readable(line + "\n" + rest) == line + "\n" + Readable(rest);
  }

  // The buffer holds no whole line: a NUL, or the end, comes before any newline.
  predicate NoLine(s: string) {
    !HasLine(s, LineEnd(s))
  }

  // Then nothing can be printed any more when it is full, has a NUL in it, or is the end.
  lemma PrintedNothing(re: string, s: string, rest: string)
    requires NoLine(s) && (|s| == BUFSIZE - 1 || rest == "")
    ensures Printed(re, s + rest) == ""
  {
    var t, k := s + rest, LineEnd(s);
    assert forall i :: 0 <= i < |s| ==> t[i] == s[i];
    if k < |s| || rest == "" {
      LineEndOf(t, k);
    } else {
      assert LineEnd(t) >= |s|;
    }
  }

  predicate LinesFit(s: string)
    decreases |s|
  {
    var k := LineEnd(s);
    if HasLine(s, k) then k < BUFSIZE - 1 && LinesFit(s[k + 1..]) else k == |s|
  }

  /** When every newline-ended line has at most 1022 characters and there is no NUL,
      nothing is lost. */
  lemma {:induction false} FittingLines(re: string, s: string)
    requires LinesFit(s)
    ensures Printed(re, s) == Selected(re, s)
    decreases |s|
  {
    var k := LineEnd(s);
    if k < |s| {
      FittingLines(re, s[k + 1..]);
      SplitLine(s, k);
      PrintedLine(re, s[..k], s[k + 1..]);
    }
  }

  lemma SplitLine(s: string, k: nat)
    requires HasLine(s, k)
    ensures AllPlain(s[..k]) && s == s[..k] + "\n" + s[k + 1..] && s[..k + 1] == s[..k] + "\n"
  {
  }

  // strchr(buf + p, '\n'), the buffer ending in a NUL at m.
  method Strchr(buf: array<char>, p: nat, m: nat) returns (found: bool, q: nat)
    requires p <= m < buf.Length && buf[m] == '\0'
    ensures p <= q <= m && (forall i :: p <= i < q ==> Plain(buf[i])) && buf[q] == (if found then '\n' else '\0')
  {
    q := p;
    while buf[q] != '\0'
      invariant p <= q <= m && forall i :: p <= i < q ==> Plain(buf[i])
      decreases m - q
    {
      if buf[q] == '\n' {
        return true, q;
      }
      q := q + 1;
    }
    found := false;
  }

  // memmove(buf, buf + p, m).
  method MoveDown(buf: array<char>, p: nat, m: nat)
    requires p + m <= buf.Length
    modifies buf
    ensures buf[..m] == old(buf[p..p + m])
  {
    var i := 0;
    while i < m
      invariant i <= m && forall k :: 0 <= k < i ==> buf[k] == old(buf[p + k])
      invariant forall k :: i <= k < buf.Length ==> buf[k] == old(buf[k])
    {
      buf[i] := buf[p + i];
      i := i + 1;
    }
  }

  // read(fd, buf + m, ...): the next bytes of the file, then a NUL.
  method Fill(buf: array<char>, m: nat, bytes: string)
    requires m + |bytes| < buf.Length
    modifies buf
    ensures buf[..m + |bytes|] == old(buf[..m]) + bytes && buf[m + |bytes|] == '\0'
  {
    var i := 0;
    while i < |bytes|
      invariant i <= |bytes| && buf[..m] == old(buf[..m]) && forall k :: 0 <= k < i ==> buf[m + k] == bytes[k]
    {
      buf[m + i] := bytes[i];
      i := i + 1;
    }
    buf[m + |bytes|] := '\0';
  }

  // grep's inner loop: the whole lines in the buffer; the rest begins at p.
  method WholeLines(re: string, buf: array<char>, m: nat, ghost rest: string) returns (out: string, p: nat)
    requires m < buf.Length == BUFSIZE && buf[m] == '\0'
    modifies buf
    ensures p <= m && NoLine(buf[p..m])
    ensures old(Printed(re, buf[..m] + rest)) == out + Printed(re, buf[p..m] + rest)
  {
    p, out := 0, "";
    assert buf[0..m] == buf[..m];
    var found, q := Strchr(buf, p, m);
    while found
      invariant p <= q <= m && buf[m] == '\0'
      invariant (forall i :: p <= i < q ==> Plain(buf[i])) && buf[q] == (if found then '\n' else '\0')
      invariant old(Printed(re, buf[..m] + rest)) == out + Printed(re, buf[p..m] + rest)
      decreases found, m - p
    {
      p, out := OneLine(re, buf, m, p, q, out, rest);
      found, q := Strchr(buf, p, m);
    }
    StoppedShort(buf[p..m], q - p);
  }

  lemma StoppedShort(s: string, k: nat)
    requires k <= |s| && (forall i :: 0 <= i < k ==> Plain(s[i])) && (k < |s| ==> s[k] == '\0')
    ensures NoLine(s)
  {
    LineEndOf(s, k);
  }

  lemma Joined(a: string, b: string, c: string)
    ensures a + b + c == a + (b + c)
  {
  }

  // One line: printed or not, and p moves past it.
  method OneLine(re: string, buf: array<char>, m: nat, p: nat, q: nat, out: string, ghost rest: string) returns (p': nat, out': string)
    requires p <= q < m < buf.Length == BUFSIZE && buf[q] == '\n' && forall i :: p <= i < q ==> Plain(buf[i])
    modifies buf
    ensures p' == q + 1 && buf[m] == old(buf[m])
    ensures out' + Printed(re, buf[p'..m] + rest) == out + old(Printed(re, buf[p..m] + rest))
  {
    var more := PrintLine(re, buf, m, p, q, rest);
    p', out' := q + 1, out + more;
    Joined(out, more, Printed(re, buf[p'..m] + rest));
  }

  method PrintLine(re: string, buf: array<char>, m: nat, p: nat, q: nat, ghost rest: string) returns (out: string)
    requires p <= q < m < buf.Length == BUFSIZE && buf[q] == '\n' && forall i :: p <= i < q ==> Plain(buf[i])
    modifies buf
    ensures buf[m] == old(buf[m])
    ensures out + Printed(re, buf[q + 1..m] + rest) == old(Printed(re, buf[p..m] + rest))
  {
    ghost var line, tail := buf[p..q], buf[q + 1..m];
    assert buf[p..m] == line + "\n" + tail;
    LinePrinted(re, line, tail, rest);
    buf[q] := '\0';
    var yes := Match(re, buf[p..q]);
    out := "";
    if yes {
      buf[q] := '\n';
      out := buf[p..q + 1];
      assert out == line + "\n";
    }
    assert buf[q + 1..m] == tail;
  }

  lemma LinePrinted(re: string, line: string, tail: string, rest: string)
    requires |line| < BUFSIZE - 1 && AllPlain(line)
    ensures Printed(re, line + "\n" + tail + rest) == (if Matches(re, line) then line + "\n" else "") + Printed(re, tail + rest)
  {
    Joined(line + "\n", tail, rest);
    PrintedLine(re, line, tail + rest);
  }

  // The loop of grep: `held` is buffered and the file read up to pos.
  ghost predicate Reading(re: string, held: string, file: string, pos: nat, out: string) {
    |held| < BUFSIZE && pos <= |file| && NoLine(held) && Printed(re, file) == out + Printed(re, held + file[pos..])
  }

  /** grep of a file whose read calls return the sizes given, then as much as fits: it
      prints exactly the matching newline-ended lines, in order, up to the first line that
      does not fit the buffer or has a NUL in it -- whatever the sizes. */
  method Grep(re: string, buf: array<char>, file: string, sizes: seq<nat>) returns (out: string)
    requires buf.Length == BUFSIZE
    modifies buf
    ensures out == Printed(re, file)
  {
    var m: nat, pos: nat, turn: nat := 0, 0, 0;
    out := "";
    ReadingStarts(re, buf[..0], file);
    while m < BUFSIZE - 1 && pos < |file|
      invariant m < BUFSIZE && pos <= |file| && Reading(re, buf[..m], file, pos, out)
      decreases |file| - pos
    {
      var size := if turn < |sizes| then sizes[turn] else 0;
      out, m, pos := NextRead(re, buf, m, file, pos, size, out);
      turn := turn + 1;
    }
    ReadingEnds(re, buf[..m], file, pos, out);
  }

  lemma ReadingStarts(re: string, held: string, file: string)
    requires held == ""
    ensures Reading(re, held, file, 0, "")
  {
    assert held + file[0..] == file;
  }

  lemma ReadingEnds(re: string, held: string, file: string, pos: nat, out: string)
    requires Reading(re, held, file, pos, out) && (|held| == BUFSIZE - 1 || pos == |file|)
    ensures out == Printed(re, file)
  {
    PrintedNothing(re, held, file[pos..]);
  }

  // One turn; read returns at least a byte and at most what it was asked for.
  method NextRead(re: string, buf: array<char>, m: nat, file: string, pos: nat, size: nat, out: string) returns (out': string, m': nat, pos': nat)
    requires buf.Length == BUFSIZE && m < BUFSIZE - 1 && pos < |file| && Reading(re, buf[..m], file, pos, out)
    modifies buf
    ensures m' < BUFSIZE && pos < pos' <= |file| && Reading(re, buf[..m'], file, pos', out')
  {
    var n := ReadSize(m, |file| - pos, size);
    pos' := pos + n;
    var more;
    more, m' := Turn(re, buf, m, file[pos..pos'], file[pos'..]);
    out' := out + more;
    ReadingMore(re, old(buf[..m]), buf[..m'], file, pos, pos', out, more);
  }

  method ReadSize(m: nat, left: nat, size: nat) returns (n: nat)
    requires m < BUFSIZE - 1 && left > 0
    ensures 1 <= n <= left && m + n < BUFSIZE
  {
    var room := BUFSIZE - 1 - m;
    n := if 1 <= size < room then size else room;
    if n > left {
      n := left;
    }
  }

  lemma ReadingMore(re: string, held: string, held': string, file: string, pos: nat, pos': nat, out: string, more: string)
    requires Reading(re, held, file, pos, out) && pos <= pos' <= |file| && |held'| < BUFSIZE && NoLine(held')
    requires Printed(re, held + (file[pos..pos'] + file[pos'..])) == more + Printed(re, held' + file[pos'..])
    ensures Reading(re, held', file, pos', out + more)
  {
    assert file[pos..] == file[pos..pos'] + file[pos'..];
    Joined(out, more, Printed(re, held' + file[pos'..]));
  }

  // One turn of grep's outer loop.
  method Turn(re: string, buf: array<char>, m: nat, bytes: string, ghost rest: string) returns (out: string, m': nat)
    requires buf.Length == BUFSIZE && m + |bytes| < BUFSIZE
    modifies buf
    ensures m' < BUFSIZE && NoLine(buf[..m'])
    ensures old(Printed(re, buf[..m] + (bytes + rest))) == out + Printed(re, buf[..m'] + rest)
  {
    Joined(buf[..m], bytes, rest);
    Fill(buf, m, bytes);
    var p;
    out, p := WholeLines(re, buf, m + |bytes|, rest);
    m' := m + |bytes| - p;
    MoveDown(buf, p, m');
  }
}
