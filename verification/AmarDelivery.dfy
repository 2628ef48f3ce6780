/** What a caller learns from the callbacks once the fragments of each attribute are joined, and what
    the reader delivers item by item, also where it takes one file's attribute for another's. */
module AmarDelivery {
  import opened AmarFormat
  import opened Text
  import opened AmarSemantics
  import opened AmarMachine

  // ---------- joining fragments ----------

  datatype Joined = Joined(pending: map<(u16, u16), seq<byte>>, out: seq<Obs>)

  const NOTHING_YET := Joined(map[], [])

  /** The fragments of an unfinished attribute delivered so far. */
  function Pend(js: Joined, f: u16, a: u16): seq<byte> {
    if (f, a) in js.pending then js.pending[(f, a)] else []
  }

  function JoinStep(js: Joined, e: Event): Joined {
    match e
    case StartCall(f, name) => js.(out := js.out + [Started(f, name)])
    case FinishCall(f, truncated) => js.(out := js.out + [Finished(f, truncated)])
    case FragmentCall(f, a, data, eoa, truncated) =>
      var all := Pend(js, f, a) + data;
      if eoa
      then Joined(js.pending - {(f, a)}, js.out + [Attr(f, a, all, truncated)])
      else js.(pending := js.pending[(f, a) := all])
  }

  function JoinOn(js: Joined, events: seq<Event>): Joined
    decreases |events|
  {
    if events == [] then js else JoinOn(JoinStep(js, events[0]), events[1..])
  }

  function Join(events: seq<Event>): Joined {
    JoinOn(NOTHING_YET, events)
  }

  lemma {:induction false} JoinOnMore(js: Joined, x: seq<Event>, y: seq<Event>)
    ensures JoinOn(js, x + y) == JoinOn(JoinOn(js, x), y)
    decreases |x|
  {
    hide JoinStep;
    if x == [] {
      assert x + y == y;
    } else {
      assert (x + y)[1..] == x[1..] + y;
      JoinOnMore(JoinStep(js, x[0]), x[1..], y);
    }
  }

  /** No fragment but an attribute's last is smaller than the attribute's minimum size. */
  predicate LargeFragments(hs: seq<Handling>, events: seq<Event>)
    requires Terminated(hs)
  {
    forall k | 0 <= k < |events| && events[k].FragmentCall? && !events[k].eoa ::
      HandlingOf(hs, events[k].attrid).minSize <= |events[k].data|
  }

  // ---------- what is delivered, item by item ----------

  /** The reader's state as far as the caller can tell: what it holds for each attribute with a state
      of its own, delivered or not, and the stray bytes that were delivered for attributes without. */
  datatype Delivery = Delivery(st: ReaderState, stray: map<(u16, u16), seq<byte>>, cache: Cache)

  const BEGIN := Delivery(INITIAL, map[], NoCache)

  function Stray(d: Delivery, f: u16, a: u16): seq<byte> {
    if (f, a) in d.stray then d.stray[(f, a)] else []
  }

  /** The file has a state for that attribute. */
  predicate HasState(st: ReaderState, f: u16, a: u16) {
    var i := FindFile(st.files, f);
    i < |st.files| && FindAttr(st.files[i].attrs, a) < |st.files[i].attrs|
  }

  /** Data delivered for a record that was taken for another file's attribute. */
  function Mistaken(c: Caller, d: Delivery, f: u16, a: u16, data: seq<byte>): Delivery {
    if HasState(d.st, f, a) then d.(st := AddData(c, d.st, f, a, false, data))
    else d.(stray := d.stray[(f, a) := Stray(d, f, a) + data])
  }

  /** Data of an open file that is not ignored.  When it is taken for another file's attribute it is
      still delivered as this file's, but no state is set up for it; when it is not, what strayed
      before it comes first. */
  function DeliverData(c: Caller, d: Delivery, f: u16, a: u16, eoa: bool, data: seq<byte>): Delivery {
    if !Receives(d.st, f) then d
    else if !Clash(d.st, d.cache, f, a) then
      Delivery(AddData(c, d.st, f, a, eoa, Stray(d, f, a) + data), d.stray - {(f, a)}, if eoa then NoCache else Cached(f, a))
    else if c.wants(a) then Mistaken(c, d, f, a, data)
    else d
  }

  /** One item that frees no attribute. */
  function Deliver(c: Caller, d: Delivery, item: Item): Delivery {
    match item
    case Header => d
    case Rec(f, a, eoa, data) =>
      if a == ATTR_EOF then
        Delivery(CloseFound(c, d.st, f, false), d.stray, if Known(d.st, f) then NoCache else d.cache)
      else if a == ATTR_FILENAME then
        Delivery(Start(c, CloseFound(c, d.st, f, true), f, data), d.stray, if Known(d.st, f) then NoCache else d.cache)
      else DeliverData(c, d, f, a, eoa, data)
  }

  function DeliverAll(c: Caller, d: Delivery, items: seq<Item>): Delivery
    decreases |items|
  {
    if items == [] then d else DeliverAll(c, Deliver(c, d, items[0]), items[1..])
  }

  /** Where no attribute is taken for another, that is the reference reader. */
  lemma {:induction false} NoClashDelivers(c: Caller, st: ReaderState, cache: Cache, items: seq<Item>)
    requires !Clashes(c, st, cache, items)
    ensures DeliverAll(c, Delivery(st, map[], cache), items)
         == Delivery(Fold(c, st, items), map[], FoldCache(c, st, cache, items))
    decreases |items|
  {
    if items != [] {
      NoClashDelivered(c, st, cache, items[0]);
      hide Deliver, Step, NextCache, ItemClashes;
      NoClashDelivers(c, Step(c, st, items[0]), NextCache(st, cache, items[0]), items[1..]);
    }
  }

  lemma NoClashDelivered(c: Caller, st: ReaderState, cache: Cache, item: Item)
    requires !ItemClashes(st, cache, item)
    ensures Deliver(c, Delivery(st, map[], cache), item) == Delivery(Step(c, st, item), map[], NextCache(st, cache, item))
  {
    hide AddData, CloseFound, Start;
    var d := Delivery(st, map[], cache);
    match item
    case Header =>
    case Rec(f, a, eoa, data) =>
      assert Stray(d, f, a) + data == data;
      assert d.stray - {(f, a)} == map[];
      assert !Receives(st, f) ==> AddData(c, st, f, a, eoa, data) == st by { NotReceived(c, st, f, a, eoa, data); }
  }

  lemma NotReceived(c: Caller, st: ReaderState, f: u16, a: u16, eoa: bool, data: seq<byte>)
    ensures !Receives(st, f) ==> AddData(c, st, f, a, eoa, data) == st
  {}
}
