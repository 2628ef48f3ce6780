/** The reader's buffer: a window over the input that grows, slides and is skipped past. */
module AmarWindow {
  import opened AmarFormat
  import opened Text

  const INITIAL_SIZE := 1024

  function Min(a: nat, b: nat): nat { if a < b then a else b }

  class Window {
    /** The bytes behind the file descriptor, and whether lseek works on it. */
    const input: seq<byte>
    const pipe: bool

    /** The descriptor's offset; lseek may put it past the end. */
    var offset: nat
    var seekable: bool
    var buf: array<byte>
    var bufOffset: nat
    var bufLen: nat
    var gotEof: bool

    ghost predicate Valid()
      reads this, buf
    {
      && bufOffset + bufLen <= buf.Length
      && INITIAL_SIZE <= buf.Length <= MAX_RECORD_DATA_SIZE
      && bufLen <= offset
      && (bufLen > 0 ==> offset <= |input|)
      && (forall j | bufOffset <= j < bufOffset + bufLen :: buf[j] == input[offset - bufLen - bufOffset + j])
      && (gotEof ==> |input| <= offset)
    }

    /** Everything from the reader's logical position to the end of the input. */
    ghost function Rest(): seq<byte>
      reads this`offset, this`bufLen
    {
      input[Min(Pos(), |input|)..]
    }

    /** The reader's logical position. */
    ghost function Pos(): nat
      reads this`offset, this`bufLen
    {
      if bufLen <= offset then offset - bufLen else 0
    }

    /** The bytes that are in memory now. */
    function Available(): (s: seq<byte>)
      reads this, buf
      requires Valid()
      ensures |s| == bufLen && s <= Rest()
    {
      assert buf[bufOffset..bufOffset + bufLen] <= Rest();
      buf[bufOffset..bufOffset + bufLen]
    }

    constructor (input: seq<byte>, pipe: bool)
      ensures Valid() && fresh(buf) && Rest() == input && this.input == input
    {
      this.input, this.pipe := input, pipe;
      offset, seekable := 0, true;
      buf := new byte[INITIAL_SIZE];
      bufOffset, bufLen, gotEof := 0, 0, false;
    }

    /** read_fully: all that was asked for, or less at the end of the input. */
    method ReadFully(at: nat, want: nat) returns (n: nat)
      requires at + want <= buf.Length
      modifies buf, this`offset
      ensures n == Min(want, |input| - Min(old(offset), |input|))
      ensures offset == old(offset) + n
      ensures n > 0 ==> offset <= |input|
      ensures forall j | at <= j < at + n :: buf[j] == input[old(offset) + (j - at)]
      ensures forall k | 0 <= k < at :: buf[k] == old(buf[k])
    {
      n := Min(want, |input| - Min(offset, |input|));
      forall j | at <= j < at + n {
        buf[j] := input[offset + (j - at)];
      }
      offset := offset + n;
    }

    /** Move the active bytes to the front of a buffer (the old one or a larger one). */
    method Slide(target: array<byte>)
      requires Valid() && buf.Length <= target.Length <= MAX_RECORD_DATA_SIZE
      modifies target, this`buf, this`bufOffset
      ensures Valid() && buf == target && bufOffset == 0
    {
      forall j | 0 <= j < bufLen {
        target[j] := buf[bufOffset + j];
      }
      buf, bufOffset := target, 0;
    }

    /** Make room for that many bytes after bufOffset, by growing or sliding the buffer. */
    method MakeRoom(atleast: nat)
      requires Valid() && atleast <= MAX_RECORD_DATA_SIZE
      modifies this`buf, this`bufOffset, buf
      ensures Valid() && (buf == old(buf) || fresh(buf))
      ensures bufOffset + atleast <= buf.Length
      ensures buf.Length == if old(buf.Length) < atleast then atleast else old(buf.Length)
    {
      if buf.Length < atleast {
        var newbuf := new byte[atleast];
        Slide(newbuf);
      } else if buf.Length - bufOffset < atleast {
        Slide(buf);
      }
    }

    /** Read ahead into all the free space after the active bytes. */
    method Fill()
      requires Valid()
      modifies buf, this`offset, this`gotEof, this`bufLen
      ensures Valid() && Rest() == old(Rest())
      ensures old(bufLen) <= bufLen
      ensures bufLen < buf.Length - bufOffset ==> bufLen == |Rest()| || (|Rest()| == 0 && bufLen == 0)
    {
      var toRead := buf.Length - bufOffset - bufLen;
      var n := ReadFully(bufOffset + bufLen, toRead);
      if n < toRead {
        gotEof := true;
      }
      bufLen := bufLen + n;
    }

    /** buf_atleast: succeeds exactly when that many bytes remain, and changes no logical state. */
    method AtLeast(atleast: nat) returns (ok: bool)
      requires Valid() && atleast <= MAX_RECORD_DATA_SIZE
      modifies this, buf
      ensures Valid() && (buf == old(buf) || fresh(buf))
      ensures Rest() == old(Rest())
      ensures ok <==> atleast <= |Rest()|
      ensures ok ==> atleast <= bufLen
      ensures buf.Length <= if old(buf.Length) < atleast then atleast else old(buf.Length)
    {
      assert |Available()| == bufLen;
      if bufLen >= atleast {
        return true;
      }
      if gotEof {
        return false;
      }
      MakeRoom(atleast);
      Fill();
      assert |Available()| == bufLen;
      return bufLen >= atleast;
    }

    static lemma RestAfter(input: seq<byte>, pos: nat, n: nat)
      ensures var rest := input[Min(pos, |input|)..];
        rest[Min(n, |rest|)..] == input[Min(pos + n, |input|)..]
    {}

    /** buf_skip: by moving the window, by lseek, or by reading and discarding.  All three leave
        the same rest, also past the end of the input. */
    method Skip(n: nat)
      requires Valid()
      modifies this, buf
      ensures Valid() && buf == old(buf)
      ensures Rest() == old(Rest())[Min(n, |old(Rest())|)..]
      ensures n <= old(bufLen) ==> bufLen == old(bufLen) - n
    {
      ghost var pos := Pos();
      RestAfter(input, pos, n);
      hide Valid;
      if n <= bufLen {
        SkipWithin(n);
      } else {
        SkipPast(n - bufLen);
      }
      assert Min(Pos(), |input|) == Min(pos + n, |input|);
    }

    method SkipWithin(n: nat)
      requires Valid() && n <= bufLen
      modifies this`bufLen, this`bufOffset
      ensures Valid() && bufLen == old(bufLen) - n && Pos() == old(Pos()) + n
    {
      bufLen, bufOffset := bufLen - n, bufOffset + n;
    }

    /** buf_skip_: drop the whole buffer and go on by that many bytes more. */
    method SkipPast(count: nat)
      requires Valid()
      modifies this, buf
      ensures Valid() && buf == old(buf) && bufLen == 0
      ensures Min(Pos(), |input|) == Min(old(Pos() + bufLen) + count, |input|)
    {
      bufLen, bufOffset := 0, 0;
      if seekable && pipe {
        seekable := false;
      }
      if seekable {
        offset := offset + count;
      } else {
        Discard(count);
      }
    }

    /** Read bytes and throw them away, until enough or the end of the input. */
    method Discard(count: nat)
      requires Valid() && bufLen == 0 && bufOffset == 0
      modifies buf, this`offset, this`gotEof
      ensures Valid()
      ensures Min(offset, |input|) == Min(old(offset) + count, |input|)
    {
      var left := count;
      while left > 0
        invariant Valid()
        invariant 0 <= left <= count && offset == old(offset) + (count - left)
      {
        var toRead := Min(left, buf.Length);
        var got := ReadFully(0, toRead);
        if got < toRead {
          gotEof := true;
          return;
        }
        left := left - got;
      }
    }
  }
}
