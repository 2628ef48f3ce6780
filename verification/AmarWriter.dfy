/** The archive writer: records of several open files, through one write buffer. */
module AmarWriter {
  import opened AmarFormat
  import opened Text

  const WRITE_BUFFER_SIZE := 512 * 1024
  const MAX_FILES := 65535

  // ---------- what each call writes ----------

  /** The last file number used, and the attributes of each open file: whether each has ended. */
  datatype WriterState = WriterState(maxFilenum: u16, files: map<u16, map<u16, bool>>)

  const NO_FILES := WriterState(0, map[])

  datatype Op =
    | NewFile(name: seq<byte>, header: bool)
    | NewAttr(filenum: u16, attrid: u16)
    | AddBuffer(filenum: u16, attrid: u16, data: seq<byte>, eoa: bool)
    /** The data is everything read from the descriptor. */
    | AddFd(filenum: u16, attrid: u16, data: seq<byte>, eoa: bool)
    | CloseAttr(filenum: u16, attrid: u16)
    /** The attributes not yet ended are ended in the order of the hash table. */
    | CloseFile(filenum: u16, order: seq<u16>)

  predicate OpenAttr(ws: WriterState, f: u16, a: u16) {
    f in ws.files && a in ws.files[f]
  }

  predicate Distinct<T(==)>(s: seq<T>) {
    forall i, j | 0 <= i < j < |s| :: s[i] != s[j]
  }

  /** The order lists the attributes of the file that have not ended, each once. */
  predicate LastOrder(attrs: map<u16, bool>, order: seq<u16>) {
    && Distinct(order)
    && (forall k | 0 <= k < |order| :: order[k] in attrs && !attrs[order[k]])
    && (forall a | a in attrs && !attrs[a] :: a in order)
  }

  /** What the assertions of the library demand of a caller. */
  predicate Legal(ws: WriterState, op: Op) {
    match op
    case NewFile(name, header) => name != []
    case NewAttr(f, a) => f in ws.files && a >= ATTR_APP_START && a !in ws.files[f]
    case AddBuffer(f, a, data, eoa) => OpenAttr(ws, f, a) && !ws.files[f][a]
    case AddFd(f, a, data, eoa) => OpenAttr(ws, f, a) && !ws.files[f][a]
    case CloseAttr(f, a) => OpenAttr(ws, f, a)
    case CloseFile(f, order) => f in ws.files && LastOrder(ws.files[f], order)
  }

  function NextFilenum(ws: WriterState): u16 {
    (ws.maxFilenum + 1) % 0x1_0000
  }

  /** A file is refused when its name is too long or no number can be free. */
  predicate Refused(ws: WriterState, name: seq<byte>) {
    |name| > MAX_RECORD_DATA_SIZE || |ws.files| == MAX_FILES
  }

  /** The records of a buffer: full ones, and a last one that carries the end mark. */
  function Chunks(f: u16, a: u16, data: seq<byte>, eoa: bool): (items: seq<Item>)
    decreases |data|
  {
    if data == [] then []
    else if |data| > MAX_RECORD_DATA_SIZE then
      [Rec(f, a, false, data[..MAX_RECORD_DATA_SIZE])] + Chunks(f, a, data[MAX_RECORD_DATA_SIZE..], eoa)
    else [Rec(f, a, eoa, data)]
  }

  /** The records of a descriptor's data: only a short read carries the end mark. */
  function FdChunks(f: u16, a: u16, data: seq<byte>, eoa: bool): (items: seq<Item>)
    decreases |data|
  {
    if data == [] then []
    else if |data| >= MAX_RECORD_DATA_SIZE then
      [Rec(f, a, false, data[..MAX_RECORD_DATA_SIZE])] + FdChunks(f, a, data[MAX_RECORD_DATA_SIZE..], eoa)
    else [Rec(f, a, eoa, data)]
  }

  function EndRecords(f: u16, order: seq<u16>): seq<Item> {
    if order == [] then [] else [Rec(f, order[0], true, [])] + EndRecords(f, order[1..])
  }

  /** The items a call appends to the archive. */
  function Records(ws: WriterState, op: Op): seq<Item> {
    match op
    case NewFile(name, header) =>
      if Refused(ws, name) then []
      else (if header then [Header] else []) + [Rec(NextFilenum(ws), ATTR_FILENAME, true, name)]
    case NewAttr(f, a) => []
    case AddBuffer(f, a, data, eoa) => Chunks(f, a, data, eoa)
    case AddFd(f, a, data, eoa) => FdChunks(f, a, data, eoa)
    case CloseAttr(f, a) => if OpenAttr(ws, f, a) && ws.files[f][a] then [] else [Rec(f, a, true, [])]
    case CloseFile(f, order) => EndRecords(f, order) + [Rec(f, ATTR_EOF, true, [])]
  }

  function SetEnded(ws: WriterState, f: u16, a: u16, ended: bool): WriterState
    requires f in ws.files
  {
    var attrs: map<u16, bool> := ws.files[f];
    var attrs': map<u16, bool> := attrs[a := ended];
    ws.(files := ws.files[f := attrs'])
  }

  /** Of all files and attributes only this one differs, and it has ended or not. */
  predicate Marked(ws: WriterState, ws': WriterState, f: u16, a: u16, ended: bool) {
    && f in ws.files && ws'.maxFilenum == ws.maxFilenum && ws'.files.Keys == ws.files.Keys
    && (forall g | g in ws.files && g != f :: ws'.files[g] == ws.files[g])
    && ws'.files[f].Keys == ws.files[f].Keys + {a} && ws'.files[f][a] == ended
    && (forall b | b in ws.files[f] && b != a :: ws'.files[f][b] == ws.files[f][b])
  }

  function After(ws: WriterState, op: Op): WriterState
    requires Legal(ws, op)
  {
    match op
    case NewFile(name, header) =>
      if Refused(ws, name) then ws
      else WriterState(NextFilenum(ws), ws.files[NextFilenum(ws) := map[]])
    case NewAttr(f, a) => SetEnded(ws, f, a, false)
    case AddBuffer(f, a, data, eoa) => SetEnded(ws, f, a, eoa)
    case AddFd(f, a, data, eoa) => SetEnded(ws, f, a, eoa)
    case CloseAttr(f, a) => SetEnded(ws, f, a, true)
    case CloseFile(f, order) => ws.(files := ws.files - {f})
  }

  lemma NoChunks(f: u16, a: u16, eoa: bool)
    ensures Chunks(f, a, [], eoa) == [] && FdChunks(f, a, [], eoa) == []
  {}

  /** One turn of the loop that cuts a buffer into records. */
  lemma ChunksUnfold(log: seq<Item>, f: u16, a: u16, data: seq<byte>, eoa: bool)
    requires data != []
    ensures log + Chunks(f, a, data, eoa) ==
      if |data| > MAX_RECORD_DATA_SIZE
      then log + [Rec(f, a, false, data[..MAX_RECORD_DATA_SIZE])] + Chunks(f, a, data[MAX_RECORD_DATA_SIZE..], eoa)
      else log + [Rec(f, a, eoa, data)] + Chunks(f, a, [], eoa)
  {}

  lemma FdChunksUnfold(log: seq<Item>, f: u16, a: u16, data: seq<byte>, eoa: bool)
    requires data != []
    ensures log + FdChunks(f, a, data, eoa) ==
      if |data| >= MAX_RECORD_DATA_SIZE
      then log + [Rec(f, a, false, data[..MAX_RECORD_DATA_SIZE])] + FdChunks(f, a, data[MAX_RECORD_DATA_SIZE..], eoa)
      else log + [Rec(f, a, eoa, data)] + FdChunks(f, a, [], eoa)
  {}

  lemma {:induction false} ChunksFit(f: u16, a: u16, data: seq<byte>, eoa: bool)
    ensures AllFit(Chunks(f, a, data, eoa)) && AllFit(FdChunks(f, a, data, eoa))
    decreases |data|
  {
    if |data| >= MAX_RECORD_DATA_SIZE {
      ChunksFit(f, a, data[MAX_RECORD_DATA_SIZE..], eoa);
    }
  }

  /** A buffer's records, one for each 4 MiB that it begins: all but the last are full, the last has the
      end mark if it was asked for and no other does, and together they are the data. */
  lemma {:induction false} ChunksAre(f: u16, a: u16, data: seq<byte>, eoa: bool)
    ensures var items := Chunks(f, a, data, eoa);
      && |items| == (|data| + 0x3f_ffff) / 0x40_0000
      && (forall k | 0 <= k < |items| :: items[k] ==
            if k < |items| - 1 then Rec(f, a, false, data[k * 0x40_0000..(k + 1) * 0x40_0000])
            else Rec(f, a, eoa, data[k * 0x40_0000..]))
    decreases |data|
  {
    if |data| > MAX_RECORD_DATA_SIZE {
      var later := data[MAX_RECORD_DATA_SIZE..];
      ChunksAre(f, a, later, eoa);
      var rest, items := Chunks(f, a, later, eoa), Chunks(f, a, data, eoa);
      forall k | 0 < k < |items|
        ensures items[k] == if k < |items| - 1 then Rec(f, a, false, data[k * 0x40_0000..(k + 1) * 0x40_0000])
                            else Rec(f, a, eoa, data[k * 0x40_0000..])
      {
        assert items[k] == rest[k - 1];
        if k < |items| - 1 {
          assert later[(k - 1) * 0x40_0000..k * 0x40_0000] == data[k * 0x40_0000..(k + 1) * 0x40_0000];
        }
      }
    }
  }

  /** A descriptor's records: as many full ones as there is data for, without the end mark, and one more
      for what is left, if anything is, with it. */
  lemma {:induction false} FdChunksAre(f: u16, a: u16, data: seq<byte>, eoa: bool)
    ensures var items := FdChunks(f, a, data, eoa); var n := |data| / 0x40_0000;
      && |items| == n + (if |data| % 0x40_0000 == 0 then 0 else 1)
      && (forall k | 0 <= k < n :: items[k] == Rec(f, a, false, data[k * 0x40_0000..(k + 1) * 0x40_0000]))
      && (|items| > n ==> items[n] == Rec(f, a, eoa, data[n * 0x40_0000..]))
    decreases |data|
  {
    var items, n := FdChunks(f, a, data, eoa), |data| / 0x40_0000;
    if |data| >= MAX_RECORD_DATA_SIZE {
      var later := data[MAX_RECORD_DATA_SIZE..];
      FdChunksAre(f, a, later, eoa);
      var rest := FdChunks(f, a, later, eoa);
      forall k | 0 < k < n ensures items[k] == Rec(f, a, false, data[k * 0x40_0000..(k + 1) * 0x40_0000]) {
        assert items[k] == rest[k - 1];
        assert later[(k - 1) * 0x40_0000..k * 0x40_0000] == data[k * 0x40_0000..(k + 1) * 0x40_0000];
      }
      if |items| > n {
        assert items[n] == rest[n - 1];
      }
    }
  }

  lemma {:induction false} EndRecordsFit(f: u16, order: seq<u16>)
    ensures AllFit(EndRecords(f, order))
  {
    if order != [] {
      EndRecordsFit(f, order[1..]);
    }
  }

  /** Closing a file writes one empty last record for each attribute that has not ended. */
  lemma {:induction false} EndRecordsAre(f: u16, order: seq<u16>)
    ensures |EndRecords(f, order)| == |order|
    ensures forall k | 0 <= k < |order| :: EndRecords(f, order)[k] == Rec(f, order[k], true, [])
  {
    if order != [] {
      EndRecordsAre(f, order[1..]);
    }
  }

  lemma EndRecordsAppend(f: u16, order: seq<u16>, a: u16)
    ensures EndRecords(f, order + [a]) == EndRecords(f, order) + [Rec(f, a, true, [])]
  {
    if order != [] {
      EndRecordsAppend(f, order[1..], a);
      assert (order + [a])[1..] == order[1..] + [a];
    }
  }

  // ---------- the writer ----------

  class Archive {
    /** What has been written to the file descriptor. */
    var output: seq<byte>
    const buf: array<byte>
    var bufLen: nat
    var position: nat
    var state: WriterState
    /** Every header and record written so far, in order. */
    ghost var log: seq<Item>

    ghost predicate Valid()
      reads this, buf
    {
      && buf.Length == WRITE_BUFFER_SIZE
      && bufLen + RECORD_SIZE <= WRITE_BUFFER_SIZE
      && AllFit(log)
      && Written() == Encode(log)
      && position == |Encode(log)|
    }

    /** amar_new, for writing */
    constructor ()
      ensures Valid() && fresh(buf) && log == [Header] && state == NO_FILES
    {
      output, bufLen, position, state, log := [], 0, 0, NO_FILES, [];
      buf := new byte[WRITE_BUFFER_SIZE];
      new;
      WriteHeader();
    }

    method Flush()
      requires Valid()
      modifies this`output, this`bufLen
      ensures Valid() && bufLen == 0 && output == Encode(log)
    {
      if bufLen > 0 {
        output := output + buf[..bufLen];
        bufLen := 0;
      }
    }

    /** Copy bytes into the buffer, after those already there. */
    method Put(bytes: seq<byte>)
      requires bufLen + |bytes| <= buf.Length
      modifies buf, this`bufLen
      ensures bufLen == old(bufLen) + |bytes|
      ensures buf[..bufLen] == old(buf[..bufLen]) + bytes
    {
      forall k | 0 <= k < |bytes| {
        buf[bufLen + k] := bytes[k];
      }
      bufLen := bufLen + |bytes|;
      assert buf[..old(bufLen)] == old(buf[..bufLen]);
      assert buf[old(bufLen)..bufLen] == bytes;
    }

    method WriteHeader()
      requires Valid()
      modifies this`output, this`bufLen, this`position, this`log, buf
      ensures Valid() && log == old(log) + [Header]
    {
      LogOne(log, Header);
      hide Encode, HEADER_BYTES;
      if bufLen + HEADER_SIZE >= WRITE_BUFFER_SIZE - RECORD_SIZE {
        Flush();
      }
      Append(HEADER_BYTES);
      position := position + HEADER_SIZE;
      log := log + [Header];
    }

    /** What the file will hold once the buffer is flushed. */
    ghost function Written(): seq<byte>
      requires bufLen <= buf.Length
      reads this, buf
    {
      output + buf[..bufLen]
    }

    method Append(bytes: seq<byte>)
      requires bufLen + |bytes| <= buf.Length
      modifies buf, this`bufLen
      ensures bufLen == old(bufLen) + |bytes|
      ensures Written() == old(Written()) + bytes
    {
      Put(bytes);
      assert Written() == old(Written()) + bytes;
    }

    /** Write out the buffer and the data together. */
    method Bypass(data: seq<byte>)
      requires bufLen <= buf.Length
      modifies this`output, this`bufLen
      ensures bufLen == 0 && Written() == old(Written()) + data
    {
      output := output + buf[..bufLen] + data;
      bufLen := 0;
    }

    lemma LogOne(log: seq<Item>, item: Item)
      requires AllFit(log) && Fits(item)
      ensures AllFit(log + [item]) && Encode(log + [item]) == Encode(log) + EncodeItem(item)
    {
      EncodeAppend(log, [item]);
      assert Encode([item]) == EncodeItem(item) + Encode([]);
    }

    /** write_record: through the buffer, or past it when the data is too large to copy. */
    method WriteRecord(f: u16, a: u16, eoa: bool, data: seq<byte>)
      requires Valid() && |data| <= MAX_RECORD_DATA_SIZE
      modifies this`output, this`bufLen, this`position, this`log, buf
      ensures Valid() && log == old(log) + [Rec(f, a, eoa, data)]
    {
      LogOne(log, Rec(f, a, eoa, data));
      var header := EncodeRecordHeader(RecordHeader(f, a, |data|, eoa));
      assert EncodeItem(Rec(f, a, eoa, data)) == header + data;
      hide Encode, EncodeItem, EncodeRecordHeader, Written, AllFit;
      PutRecord(header, data);
      position := position + |data| + RECORD_SIZE;
      log := log + [Rec(f, a, eoa, data)];
    }

    /** The buffer always has room for a record header; the data is copied only if that leaves room. */
    method PutRecord(header: seq<byte>, data: seq<byte>)
      requires buf.Length == WRITE_BUFFER_SIZE && bufLen + RECORD_SIZE <= WRITE_BUFFER_SIZE && |header| == RECORD_SIZE
      modifies this`output, this`bufLen, buf
      ensures bufLen + RECORD_SIZE <= WRITE_BUFFER_SIZE
      ensures Written() == old(Written()) + (header + data)
    {
      ghost var before := Written();
      assert before + header + data == before + (header + data);
      hide Written;
      Append(header);
      if bufLen + RECORD_SIZE + |data| < WRITE_BUFFER_SIZE - RECORD_SIZE {
        Append(data);
      } else {
        Bypass(data);
      }
    }

    /** amar_new_file: the new file's number, and where its header is if one was asked for. */
    method NewFile(name: seq<byte>, header: bool) returns (filenum: Option<u16>, offset: nat)
      requires Valid() && name != []
      modifies this, buf
      ensures Valid() && state == After(old(state), Op.NewFile(name, header))
      ensures log == old(log) + Records(old(state), Op.NewFile(name, header))
      ensures filenum == None <==> |name| > 4 * 1024 * 1024 || |old(state.files)| == 65535
      ensures filenum == None ==> state == old(state) && log == old(log)
      ensures filenum.Some? ==>
        && filenum.value == (old(state.maxFilenum) + 1) % 65536 == state.maxFilenum
        && state.files == old(state.files)[filenum.value := map[]]
        && log == old(log) + (if header then [Header] else []) + [Rec(filenum.value, ATTR_FILENAME, true, name)]
      ensures header ==> offset == |Encode(old(log))|
    {
      offset := position;
      if |name| > MAX_RECORD_DATA_SIZE || |state.files| == MAX_FILES {
        return None, offset;
      }
      // the search for an unused number is left after one step: see FreshNumbers
      var f := NextFilenum(state);
      state := WriterState(f, state.files[f := map[]]);
      if header {
        WriteHeader();
      }
      WriteRecord(f, ATTR_FILENAME, true, name);
      filenum := Some(f);
    }

    /** amar_new_attr */
    method NewAttr(f: u16, a: u16)
      requires Valid() && f in state.files && a >= ATTR_APP_START && a !in state.files[f]
      modifies this`state
      ensures Valid() && state == After(old(state), Op.NewAttr(f, a))
      ensures Marked(old(state), state, f, a, false)
    {
      state := SetEnded(state, f, a, false);
    }

    /** amar_attr_close */
    method CloseAttr(f: u16, a: u16)
      requires Valid() && f in state.files && a in state.files[f]
      modifies this, buf
      ensures Valid() && state == After(old(state), Op.CloseAttr(f, a))
      ensures log == old(log) + Records(old(state), Op.CloseAttr(f, a))
      ensures Marked(old(state), state, f, a, true)
      ensures log == old(log) + if old(state.files[f][a]) then [] else [Rec(f, a, true, [])]
    {
      if !state.files[f][a] {
        WriteRecord(f, a, true, []);
      }
      state := SetEnded(state, f, a, true);
    }

    /** amar_attr_add_data_buffer */
    method AddBuffer(f: u16, a: u16, data: seq<byte>, eoa: bool)
      requires Valid() && f in state.files && a in state.files[f] && !state.files[f][a]
      modifies this, buf
      ensures Valid() && state == After(old(state), Op.AddBuffer(f, a, data, eoa))
      ensures Marked(old(state), state, f, a, eoa)
      ensures log == old(log) + Records(old(state), Op.AddBuffer(f, a, data, eoa))
    {
      hide Chunks, Encode;
      var rest := data;
      while rest != []
        invariant Valid() && state == old(state)
        invariant log + Chunks(f, a, rest, eoa) == old(log) + Chunks(f, a, data, eoa)
        decreases |rest|
      {
        ChunksUnfold(log, f, a, rest, eoa);
        if |rest| > MAX_RECORD_DATA_SIZE {
          WriteRecord(f, a, false, rest[..MAX_RECORD_DATA_SIZE]);
          rest := rest[MAX_RECORD_DATA_SIZE..];
        } else {
          WriteRecord(f, a, eoa, rest);
          rest := [];
        }
      }
      NoChunks(f, a, eoa);
      if eoa {
        state := SetEnded(state, f, a, true);
      } else {
        assert SetEnded(state, f, a, false) == state by {
          assert state.files[f][a := false] == state.files[f];
          assert state.files[f := state.files[f]] == state.files;
        }
      }
    }

    /** amar_attr_add_data_fd: blocks of the maximum size until a short read. */
    method AddFd(f: u16, a: u16, data: seq<byte>, eoa: bool) returns (filesize: nat)
      requires Valid() && f in state.files && a in state.files[f] && !state.files[f][a]
      modifies this, buf
      ensures Valid() && state == After(old(state), Op.AddFd(f, a, data, eoa))
      ensures Marked(old(state), state, f, a, eoa)
      ensures filesize == |data|
      ensures log == old(log) + Records(old(state), Op.AddFd(f, a, data, eoa))
    {
      hide FdChunks, Encode;
      var rest := data;
      filesize := 0;
      while true
        invariant Valid() && state == old(state) && filesize + |rest| == |data|
        invariant log + FdChunks(f, a, rest, eoa) == old(log) + FdChunks(f, a, data, eoa)
        decreases |rest|
      {
        var size := if |rest| < MAX_RECORD_DATA_SIZE then |rest| else MAX_RECORD_DATA_SIZE;
        if size == 0 {
          break;
        }
        var shortRead := size < MAX_RECORD_DATA_SIZE;
        var block := rest[..size];
        FdChunksUnfold(log, f, a, rest, eoa);
        assert shortRead ==> block == rest;
        WriteRecord(f, a, eoa && shortRead, block);
        rest := rest[size..];
        filesize := filesize + size;
        if shortRead {
          assert rest == [];
          break;
        }
      }
      NoChunks(f, a, eoa);
      state := SetEnded(state, f, a, eoa);
    }

    /** amar_file_close: end what has not ended, in some order, and write the end of file. */
    method CloseFile(f: u16) returns (ghost order: seq<u16>)
      requires Valid() && f in state.files
      modifies this, buf
      ensures Legal(old(state), Op.CloseFile(f, order))
      ensures Valid() && state == After(old(state), Op.CloseFile(f, order))
      ensures log == old(log) + Records(old(state), Op.CloseFile(f, order))
      ensures state == old(state).(files := old(state.files) - {f})
    {
      order := [];
      var attrs := state.files[f];
      var left := attrs.Keys;
      while left != {}
        invariant Valid() && state == old(state) && left <= attrs.Keys
        invariant Distinct(order)
        invariant forall k | 0 <= k < |order| :: order[k] in attrs && !attrs[order[k]] && order[k] !in left
        invariant forall a | a in attrs && !attrs[a] :: a in order || a in left
        invariant log == old(log) + EndRecords(f, order)
        decreases left
      {
        var a :| a in left;
        if !attrs[a] {
          WriteRecord(f, a, true, []);
          EndRecordsAppend(f, order, a);
          order := order + [a];
        }
        left := left - {a};
      }
      WriteRecord(f, ATTR_EOF, true, []);
      state := state.(files := state.files - {f});
    }

    /** amar_close: nothing is lost on the way to the file descriptor. */
    method Close()
      requires Valid() && state.files == map[]
      modifies this`output, this`bufLen
      ensures output == Encode(log)
    {
      Flush();
    }
  }
}
