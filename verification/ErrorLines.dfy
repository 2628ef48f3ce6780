/** Turning what a service writes to its standard error into lines of its reply. */
module ErrorLines {
  import opened Text

  function IndexOf(s: seq<byte>, b: byte): (n: nat)
    ensures n <= |s|
    ensures n < |s| ==> s[n] == b
    ensures forall i | 0 <= i < n :: s[i] != b
  {
    if s == [] || s[0] == b then 0 else 1 + IndexOf(s[1..], b)
  }

  lemma IndexIs(s: seq<byte>, b: byte, n: nat)
    requires n <= |s| && (n < |s| ==> s[n] == b) && forall i | 0 <= i < n :: s[i] != b
    ensures IndexOf(s, b) == n
  {}

  /** The complete lines of a text, without their newlines, and what follows the last one. */
  datatype Split = Split(lines: seq<seq<byte>>, rest: seq<byte>)

  function SplitLines(s: seq<byte>): Split
    decreases |s|
  {
    var n := IndexOf(s, NEWLINE);
    if n == |s| then Split([], s)
    else
      var later := SplitLines(s[n + 1..]);
      Split([s[..n]] + later.lines, later.rest)
  }

  function JoinLines(lines: seq<seq<byte>>): seq<byte> {
    if lines == [] then [] else lines[0] + [NEWLINE] + JoinLines(lines[1..])
  }

  predicate OneLine(s: seq<byte>) { NEWLINE !in s }

  lemma SplitFirst(line: seq<byte>, rest: seq<byte>)
    requires OneLine(line)
    ensures var later := SplitLines(rest); SplitLines(line + [NEWLINE] + rest) == Split([line] + later.lines, later.rest)
  {
    var s := line + [NEWLINE] + rest;
    IndexIs(s, NEWLINE, |line|);
    assert s[..|line|] == line && s[|line| + 1..] == rest;
  }

  /** Lines and rest are the only way to cut a text at its newlines. */
  lemma {:induction false} SplitUnique(lines: seq<seq<byte>>, rest: seq<byte>)
    requires (forall i | 0 <= i < |lines| :: OneLine(lines[i])) && OneLine(rest)
    ensures SplitLines(JoinLines(lines) + rest) == Split(lines, rest)
  {
    hide SplitLines;
    if lines == [] {
      assert JoinLines([]) + rest == rest;
      NoNewline(rest);
    } else {
      SplitUnique(lines[1..], rest);
      SplitFirst(lines[0], JoinLines(lines[1..]) + rest);
      assert JoinLines(lines) + rest == lines[0] + [NEWLINE] + (JoinLines(lines[1..]) + rest);
    }
  }

  lemma NoNewline(s: seq<byte>)
    requires OneLine(s)
    ensures SplitLines(s) == Split([], s)
  {
    IndexIs(s, NEWLINE, |s|);
  }

  lemma JoinFirst(line: seq<byte>, lines: seq<seq<byte>>)
    ensures JoinLines([line] + lines) == line + [NEWLINE] + JoinLines(lines)
  {
    assert ([line] + lines)[1..] == lines;
  }

  /** A text is one unfinished line, or a line, a newline and more text. */
  lemma FirstLine(s: seq<byte>) returns (line: seq<byte>, more: seq<byte>)
    requires !OneLine(s)
    ensures OneLine(line) && s == line + [NEWLINE] + more
  {
    var n := IndexOf(s, NEWLINE);
    line, more := s[..n], s[n + 1..];
  }

  predicate Inverse(s: seq<byte>, t: Split) {
    JoinLines(t.lines) + t.rest == s && OneLine(t.rest) && forall i | 0 <= i < |t.lines| :: OneLine(t.lines[i])
  }

  lemma InverseFirst(line: seq<byte>, s: seq<byte>, t: Split)
    requires OneLine(line) && Inverse(s, t)
    ensures Inverse(line + [NEWLINE] + s, Split([line] + t.lines, t.rest))
  {
    hide JoinLines;
    JoinFirst(line, t.lines);
    Assoc(line + [NEWLINE], JoinLines(t.lines), t.rest);
  }

  lemma {:induction false} SplitInverse(s: seq<byte>)
    ensures Inverse(s, SplitLines(s))
    decreases |s|
  {
    hide SplitLines, Inverse;
    if OneLine(s) {
      NoNewline(s);
      assert Inverse(s, Split([], s)) by { NoLines(s); }
    } else {
      var line, more := FirstLine(s);
      SplitInverse(more);
      SplitFirst(line, more);
      InverseFirst(line, more, SplitLines(more));
    }
  }

  lemma NoLines(s: seq<byte>)
    requires OneLine(s)
    ensures Inverse(s, Split([], s))
  {
    assert [] + s == s;
  }

  lemma {:induction false} JoinAppend(x: seq<seq<byte>>, y: seq<seq<byte>>)
    ensures JoinLines(x + y) == JoinLines(x) + JoinLines(y)
  {
    if x == [] {
      assert x + y == y;
    } else {
      assert (x + y)[1..] == x[1..] + y;
      JoinAppend(x[1..], y);
    }
  }

  /** A text that goes on. */
  lemma SplitAppend(s: seq<byte>, t: seq<byte>)
    ensures var a := SplitLines(s); var b := SplitLines(a.rest + t);
      SplitLines(s + t) == Split(a.lines + b.lines, b.rest)
  {
    var a := SplitLines(s);
    var b := SplitLines(a.rest + t);
    hide SplitLines;
    SplitInverse(s);
    SplitInverse(a.rest + t);
    JoinAppend(a.lines, b.lines);
    Assoc(JoinLines(a.lines), a.rest, t);
    Assoc(JoinLines(a.lines), JoinLines(b.lines), b.rest);
    assert s + t == JoinLines(a.lines + b.lines) + b.rest;
    SplitUnique(a.lines + b.lines, b.rest);
  }

  // ---------- the relay ----------

  /** "ERROR service NAME: LINE", where the prefix is everything before the line. */
  function Messages(prefix: seq<byte>, lines: seq<seq<byte>>): seq<byte> {
    if lines == [] then [] else prefix + lines[0] + [NEWLINE] + Messages(prefix, lines[1..])
  }

  /** Each line makes one message: the prefix, the line, a newline. */
  lemma {:induction false} MessagesAre(prefix: seq<byte>, lines: seq<seq<byte>>)
    ensures Messages(prefix, lines) == Flatten(seq(|lines|, i requires 0 <= i < |lines| => prefix + lines[i] + [NEWLINE]))
  {
    var pieces := seq(|lines|, i requires 0 <= i < |lines| => prefix + lines[i] + [NEWLINE]);
    if lines != [] {
      var front, last := lines[..|lines| - 1], lines[|lines| - 1];
      MessagesAre(prefix, front);
      MessagesAppend(prefix, front, [last]);
      assert front + [last] == lines;
      assert Messages(prefix, [last]) == prefix + last + [NEWLINE];
      assert pieces[..|lines| - 1] == seq(|front|, i requires 0 <= i < |front| => prefix + front[i] + [NEWLINE]);
    }
  }

  /** The reply and the unfinished line. */
  datatype Relay = Relay(reply: seq<byte>, partial: seq<byte>)

  function Receive(prefix: seq<byte>, r: Relay, data: seq<byte>): Relay {
    var s := SplitLines(r.partial + CString(data));
    Relay(r.reply + Messages(prefix, s.lines), s.rest)
  }

  function ReceiveAll(prefix: seq<byte>, r: Relay, pieces: seq<seq<byte>>): Relay {
    if pieces == [] then r else Receive(prefix, ReceiveAll(prefix, r, pieces[..|pieces| - 1]), pieces[|pieces| - 1])
  }

  lemma {:induction false} MessagesAppend(prefix: seq<byte>, x: seq<seq<byte>>, y: seq<seq<byte>>)
    ensures Messages(prefix, x + y) == Messages(prefix, x) + Messages(prefix, y)
  {
    if x == [] {
      assert x + y == y;
    } else {
      assert (x + y)[1..] == x[1..] + y;
      MessagesAppend(prefix, x[1..], y);
    }
  }

  lemma NoMessages(prefix: seq<byte>, reply: seq<byte>)
    ensures reply + Messages(prefix, []) == reply
  {}

  /** For every way of cutting a NUL-free stream into reads, the lines added to the reply are the
      complete lines of the stream, in order, and the unfinished line is kept. */
  lemma {:induction false} RelayExact(prefix: seq<byte>, reply: seq<byte>, pieces: seq<seq<byte>>)
    requires NUL !in Flatten(pieces)
    ensures var s := SplitLines(Flatten(pieces));
      ReceiveAll(prefix, Relay(reply, []), pieces) == Relay(reply + Messages(prefix, s.lines), s.rest)
  {
    hide SplitLines, Messages;
    if pieces == [] {
      NoNewline([]);
      assert reply + Messages(prefix, []) == reply by { NoMessages(prefix, reply); }
    } else {
      var front, data := pieces[..|pieces| - 1], pieces[|pieces| - 1];
      RelayExact(prefix, reply, front);
      SplitAppend(Flatten(front), data);
      var a := SplitLines(Flatten(front));
      var b := SplitLines(a.rest + data);
      MessagesAppend(prefix, a.lines, b.lines);
      Assoc(reply, Messages(prefix, a.lines), Messages(prefix, b.lines));
    }
  }

  // ---------- the reply buffer ----------

  const NETWORK_BLOCK_BYTES := 32 * 1024

  /** The sizes the buffer may have. */
  predicate BlockSize(n: nat) {
    n == NETWORK_BLOCK_BYTES || (n > NETWORK_BLOCK_BYTES && n % 2 == 0 && BlockSize(n / 2))
  }

  function Double(n: nat, requested: nat): (r: nat)
    requires n > 0
    ensures r >= requested && r >= n
    decreases requested - n
  {
    if n < requested then Double(2 * n, requested) else n
  }

  /** The length of the buffer once there is room for this many bytes. */
  function Grown(length: nat, requested: nat): (r: nat)
    ensures r >= requested && r >= length
  {
    if length >= requested then length
    else Double(if length == 0 then NETWORK_BLOCK_BYTES else length, requested)
  }

  class ReplyBuffer {
    var buf: array<byte>
    var size: nat

    /** A byte is always spare, for a terminator. */
    ghost predicate Valid()
      reads this
    {
      if buf.Length == 0 then size == 0 else size < buf.Length && BlockSize(buf.Length)
    }

    ghost function Contents(): (s: seq<byte>)
      reads this, buf
      requires Valid()
      ensures |s| == size
    {
      buf[..size]
    }

    constructor ()
      ensures Valid() && fresh(buf) && Contents() == [] && buf.Length == 0
    {
      buf, size := new byte[0], 0;
    }

    /** Makes room for some bytes and the terminator, doubling the buffer as often as needed. */
    method Expand(more: nat) returns (expanded: bool)
      requires Valid()
      modifies this`buf
      ensures Valid() && (buf == old(buf) || fresh(buf))
      ensures Contents() == old(Contents()) && size + more < buf.Length
      ensures expanded <==> old(buf.Length) < size + more + 1
      ensures buf.Length == Grown(old(buf.Length), size + more + 1)
      ensures !expanded ==> buf == old(buf)
      ensures expanded ==> buf.Length == NETWORK_BLOCK_BYTES || buf.Length / 2 < size + more + 1
    {
      var newSize, requested := buf.Length, size + more + 1;
      if newSize >= requested { return false; }
      if newSize == 0 { newSize := NETWORK_BLOCK_BYTES; }
      while newSize < requested
        invariant BlockSize(newSize)
        invariant newSize == NETWORK_BLOCK_BYTES || newSize / 2 < requested
        invariant Double(newSize, requested) == Grown(buf.Length, requested)
        decreases requested - newSize
      {
        newSize := newSize * 2;
      }
      var newBuf := new byte[newSize](i => 0);
      for i := 0 to size
        invariant buf == old(buf) && size < newSize
        invariant newBuf[..i] == buf[..i]
      {
        newBuf[i] := buf[i];
      }
      buf := newBuf;
      expanded := true;
    }

    method Append(data: seq<byte>)
      requires Valid() && size + |data| < buf.Length
      modifies this`size, buf
      ensures Valid() && buf == old(buf) && Contents() == old(Contents()) + data
    {
      for i := 0 to |data|
        invariant buf == old(buf) && size == old(size)
        invariant buf[..size + i] == old(buf[..size]) + data[..i]
      {
        buf[size + i] := data[i];
      }
      size := size + |data|;
    }
  }
}
