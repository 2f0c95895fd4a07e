/** What a SIFT reader does with a stream of records, as a function of its state. */
module SiftReplay {
  import opened Basics
  import opened Bytes
  import opened SiftFormat
  import opened SiftImage

  /** The static part of an instruction. */
  datatype Static = Static(addr: u64, size: int, data: seq<byte>)

  /** The instruction that `Read` hands to its caller. */
  datatype Dynamic = Dynamic(sinst: Static, addresses: seq<u64>, isBranch: bool, taken: bool, isPredicate: bool,
                             executed: bool, isa: u32)

  /** What a reader lets its caller see: returned instructions, callbacks with their arguments, and the
      verdict on a checksum record. */
  datatype Event = Executed(inst: Dynamic) | Called(msg: Msg) | Checked(ok: bool)

  /** `next` maps the address of a cached instruction to the address its `next` pointer leads to. */
  datatype Reader = Reader(last: u64, icache: Image, vcache: map<u64, u64>, scache: map<u64, Static>,
                           next: map<u64, u64>, lastStatic: Option<u64>, isa: u32, checksum: byte, seenEnd: bool)

  const INITIAL: Reader := Reader(0, map[], map[], map[], map[], None, 0, 0, false)

  /** Pointers only lead to instructions in the cache, each stored under its own address. */
  ghost predicate Consistent(r: Reader) {
    && (forall a :: a in r.scache ==> r.scache[a].addr == a)
    && (forall a :: a in r.next ==> a in r.scache && r.next[a] in r.scache)
    && (r.lastStatic.Some? ==> r.lastStatic.value in r.scache)
  }

  // ----- static instructions

  predicate Shortcut(r: Reader, addr: u64) {
    r.lastStatic.Some? && r.lastStatic.value in r.next && r.next[r.lastStatic.value] == addr
  }

  /** The cached or freshly rebuilt instruction at `addr`. The shortcut does not compare the size. */
  function Lookup(r: Reader, addr: u64, size: nat): (s: Option<Static>)
    requires Consistent(r)
    ensures s.Some? ==> s.value.addr == addr
  {
    if Shortcut(r, addr) then Some(r.scache[addr])
    else if addr in r.scache then
      if r.scache[addr].size == size then Some(r.scache[addr]) else None
    else
      match Rebuild(r.icache, addr, size)
      case None => None
      case Some(data) => Some(Static(addr, size, data))
  }

  /** The caches after `sinst` was looked up: it is stored, becomes the previous instruction's probable
      successor if that had none, and is the previous instruction from now on. */
  function Remember(r: Reader, sinst: Static): (r': Reader)
    requires Consistent(r)
    ensures Consistent(r')
  {
    var next := if r.lastStatic.Some? && r.lastStatic.value !in r.next then r.next[r.lastStatic.value := sinst.addr]
                else r.next;
    r.(scache := r.scache[sinst.addr := sinst], next := next, lastStatic := Some(sinst.addr))
  }

  // ----- one record

  datatype Effect = Effect(state: Reader, events: seq<Event>) | Fault

  function Execute(r: Reader, addr: u64, size: nat, m: Msg, isPredicate: bool, executed: bool): (e: Effect)
    requires Consistent(r) && (m.Short? || m.Ext?)
    ensures e.Effect? ==> Consistent(e.state)
  {
    match Lookup(r, addr, size)
    case None => Fault
    case Some(sinst) =>
      var inst := Dynamic(sinst, m.addresses, m.isBranch, m.taken, isPredicate, executed, r.isa);
      Effect(Remember(r.(last := Add64(addr, size)), sinst), [Executed(inst)])
  }

  /** The effect of one record on a reader that has not folded it into its checksum yet. */
  function Apply(r: Reader, m: Msg): (e: Effect)
    requires Consistent(r)
    ensures e.Effect? ==> Consistent(e.state)
  {
    match m
    case Short(size, _, _, _) => if size < 0 then Fault else Execute(r, r.last, size, m, false, true)
    case Ext(size, _, _, isPredicate, executed, addr, _) =>
      if size < 0 then Fault else Execute(r, addr, size, m, isPredicate, executed)
    case Sum(value) => Effect(r, [Checked(value == r.checksum)])
    case End => Effect(r.(seenEnd := true), [])
    case Icache(base, bytes) => Effect(r.(icache := r.icache[base := WholePage(bytes)]), [])
    case IcacheVariable(base, bytes) => Effect(r.(icache := Store(r.icache, base, bytes)), [])
    case PageMap(vp, pp) => Effect(r.(vcache := r.vcache[vp := pp]), [])
    case ISAChange(isa) => Effect(r.(isa := isa), [])
    case Unknown(_, _) => Effect(r, [])
    case _ => Effect(r, [Called(m)])
  }

  /** The checksum register influences nothing but checksum verdicts. */
  lemma ApplyIgnoresChecksum(r: Reader, c: byte, m: Msg)
    requires Consistent(r) && Consistent(r.(checksum := c))
    ensures var e, f := Apply(r, m), Apply(r.(checksum := c), m);
            && e.Effect? == f.Effect?
            && (e.Effect? ==>
                 && e.state.checksum == r.checksum && f.state == e.state.(checksum := c)
                 && (m.Sum? || e.events == f.events))
  {
    hide Store, WholePage, Execute;
    if m.Short? && m.size >= 0 {
      ExecuteIgnoresChecksum(r, c, r.last, m.size, m, false, true);
    } else if m.Ext? && m.size >= 0 {
      ExecuteIgnoresChecksum(r, c, m.addr, m.size, m, m.isPredicate, m.executed);
    }
  }

  lemma ExecuteIgnoresChecksum(r: Reader, c: byte, addr: u64, size: nat, m: Msg, isPredicate: bool, executed: bool)
    requires Consistent(r) && Consistent(r.(checksum := c)) && (m.Short? || m.Ext?)
    ensures var e := Execute(r, addr, size, m, isPredicate, executed);
            var f := Execute(r.(checksum := c), addr, size, m, isPredicate, executed);
            && e.Effect? == f.Effect?
            && (e.Effect? ==>
                 e.state.checksum == r.checksum && f.state == e.state.(checksum := c) && e.events == f.events)
  {
    hide Lookup, Remember;
    LookupIgnoresChecksum(r, c, addr, size);
    var sinst := Lookup(r, addr, size);
    if sinst.Some? {
      RememberIgnoresChecksum(r.(last := Add64(addr, size)), c, sinst.value);
    }
  }

  lemma LookupIgnoresChecksum(r: Reader, c: byte, addr: u64, size: nat)
    requires Consistent(r) && Consistent(r.(checksum := c))
    ensures Lookup(r.(checksum := c), addr, size) == Lookup(r, addr, size)
  {
    hide Rebuild;
  }

  lemma RememberIgnoresChecksum(r: Reader, c: byte, sinst: Static)
    requires Consistent(r) && Consistent(r.(checksum := c))
    ensures Remember(r, sinst).checksum == r.checksum
    ensures Remember(r.(checksum := c), sinst) == Remember(r, sinst).(checksum := c)
  {
  }

  /** One record, including its contribution to the checksum. */
  function Consume(r: Reader, m: Msg, bytes: seq<byte>): (e: Effect)
    requires Consistent(r)
    ensures e.Effect? ==> Consistent(e.state)
  {
    match Apply(r, m)
    case Fault => Fault
    case Effect(state, events) => Effect(state.(checksum := Checksum(r.checksum, bytes)), events)
  }

  // ----- a whole stream

  /** Either the end record was reached, with `rest` behind it, or the stream broke off. */
  datatype Playback = Finished(state: Reader, events: seq<Event>, rest: seq<byte>) | Broken(events: seq<Event>)

  function After(events: seq<Event>, p: Playback): Playback {
    p.(events := events + p.events)
  }

  function Replay(r: Reader, s: seq<byte>): Playback
    requires Consistent(r)
    decreases |s|
  {
    if r.seenEnd then Finished(r, [], s)
    else
      match Decode(s)
      case Bad => Broken([])
      case Got(m, n) =>
        DecodeLength(s);
        match Consume(r, m, s[..n])
        case Fault => Broken([])
        case Effect(r', events) => After(events, Replay(r', s[n..]))
  }

  lemma DecodeLength(s: seq<byte>)
    ensures Decode(s).Got? ==> 0 < Decode(s).length <= |s|
  {
  }

  // ----- records with their padding

  datatype Wire = Wire(msg: Msg, pad: seq<byte>)

  predicate ValidWire(w: Wire) {
    WellFormed(w.msg) && |w.pad| == PadSize(w.msg)
  }

  predicate ValidWires(ws: seq<Wire>) {
    forall i :: 0 <= i < |ws| ==> ValidWire(ws[i])
  }

  function Flatten(ws: seq<Wire>): seq<byte>
    requires ValidWires(ws)
  {
    if ws == [] then [] else Encode(ws[0].msg, ws[0].pad) + Flatten(ws[1..])
  }

  function Msgs(ws: seq<Wire>): (ms: seq<Msg>)
    ensures |ms| == |ws|
  {
    seq(|ws|, i requires 0 <= i < |ws| => ws[i].msg)
  }

  function Prepend(events: seq<Event>, e: Effect): Effect {
    if e.Fault? then Fault else Effect(e.state, events + e.events)
  }

  /** Feeding a list of records to a reader. */
  function Feed(r: Reader, ws: seq<Wire>): (e: Effect)
    requires Consistent(r) && ValidWires(ws)
    ensures e.Effect? ==> Consistent(e.state)
    decreases |ws|
  {
    if ws == [] then Effect(r, [])
    else
      match Consume(r, ws[0].msg, Encode(ws[0].msg, ws[0].pad))
      case Fault => Fault
      case Effect(r', events) => Prepend(events, Feed(r', ws[1..]))
  }

  lemma {:induction false} FlattenConcat(xs: seq<Wire>, ys: seq<Wire>)
    requires ValidWires(xs) && ValidWires(ys)
    ensures Flatten(xs + ys) == Flatten(xs) + Flatten(ys)
  {
    if xs == [] {
      assert xs + ys == ys;
    } else {
      assert (xs + ys)[1..] == xs[1..] + ys;
      FlattenConcat(xs[1..], ys);
    }
  }

  lemma {:induction false} FeedConcat(r: Reader, xs: seq<Wire>, ys: seq<Wire>)
    requires Consistent(r) && ValidWires(xs) && ValidWires(ys)
    requires Feed(r, xs).Effect?
    ensures var e := Feed(r, xs);
            Feed(r, xs + ys) == Prepend(e.events, Feed(e.state, ys))
    decreases |xs|
  {
    hide Encode, Consume, Consistent, Feed, Prepend;
    if xs == [] {
      assert xs + ys == ys;
      FeedNothing(r);
      PrependNothing(Feed(r, ys));
    } else {
      assert (xs + ys)[1..] == xs[1..] + ys && (xs + ys)[0] == xs[0];
      FeedCons(r, xs);
      FeedCons(r, xs + ys);
      var first := Consume(r, xs[0].msg, Encode(xs[0].msg, xs[0].pad));
      var middle := Feed(first.state, xs[1..]);
      PrependIs(first.events, middle);
      FeedConcat(first.state, xs[1..], ys);
      PrependTwice(first.events, middle.events, Feed(middle.state, ys));
    }
  }

  lemma FeedNothing(r: Reader)
    requires Consistent(r)
    ensures Feed(r, []) == Effect(r, [])
  {
  }

  lemma FeedCons(r: Reader, ws: seq<Wire>)
    requires Consistent(r) && ValidWires(ws) && ws != []
    ensures var first := Consume(r, ws[0].msg, Encode(ws[0].msg, ws[0].pad));
            Feed(r, ws) == if first.Fault? then Fault else Prepend(first.events, Feed(first.state, ws[1..]))
  {
    hide Encode, Consume, Consistent, Prepend;
  }

  lemma PrependNothing(e: Effect)
    ensures Prepend([], e) == e
  {
    assert e.Effect? ==> [] + e.events == e.events;
  }

  lemma PrependIs(events: seq<Event>, e: Effect)
    ensures Prepend(events, e) == if e.Fault? then Fault else Effect(e.state, events + e.events)
  {
  }

  lemma PrependTwice(a: seq<Event>, b: seq<Event>, e: Effect)
    ensures Prepend(a, Prepend(b, e)) == Prepend(a + b, e)
  {
    assert e.Effect? ==> a + (b + e.events) == (a + b) + e.events;
  }

  /** Playing back a stream that begins with the bytes of a record. */
  lemma ReplayRecord(r: Reader, w: Wire, tail: seq<byte>)
    requires Consistent(r) && ValidWire(w) && !r.seenEnd
    ensures var e := Consume(r, w.msg, Encode(w.msg, w.pad));
            Replay(r, Encode(w.msg, w.pad) + tail) ==
            if e.Fault? then Broken([]) else After(e.events, Replay(e.state, tail))
  {
    hide Encode, Decode, Apply;
    var bytes := Encode(w.msg, w.pad);
    var s := bytes + tail;
    RoundTrip(w.msg, w.pad, tail);
    assert s[..|bytes|] == bytes && s[|bytes|..] == tail;
  }

  /** The bytes of a list of records play back as those records, whatever follows them. */
  lemma {:induction false} ReplayFlatten(r: Reader, ws: seq<Wire>, rest: seq<byte>)
    requires Consistent(r) && ValidWires(ws) && !r.seenEnd
    requires forall i :: 0 <= i < |ws| ==> !ws[i].msg.End?
    requires Feed(r, ws).Effect?
    ensures var e := Feed(r, ws);
            !e.state.seenEnd && Replay(r, Flatten(ws) + rest) == After(e.events, Replay(e.state, rest))
    decreases |ws|
  {
    hide Encode, Replay;
    if ws == [] {
      assert Flatten(ws) + rest == rest;
      AfterNothing(Replay(r, rest));
    } else {
      var w := ws[0];
      var tail := Flatten(ws[1..]) + rest;
      assert Flatten(ws) + rest == Encode(w.msg, w.pad) + tail;
      ReplayRecord(r, w, tail);
      var first := Consume(r, w.msg, Encode(w.msg, w.pad));
      StaysOpen(r, w.msg);
      ReplayFlatten(first.state, ws[1..], rest);
      var e := Feed(first.state, ws[1..]);
      AfterAfter(first.events, e.events, Replay(e.state, rest));
    }
  }

  lemma StaysOpen(r: Reader, m: Msg)
    requires Consistent(r) && !m.End? && Apply(r, m).Effect?
    ensures Apply(r, m).state.seenEnd == r.seenEnd
  {
  }

  lemma AfterNothing(p: Playback)
    ensures After([], p) == p
  {
    assert [] + p.events == p.events;
  }

  lemma AfterAfter(xs: seq<Event>, ys: seq<Event>, p: Playback)
    ensures After(xs, After(ys, p)) == After(xs + ys, p)
  {
    assert xs + (ys + p.events) == (xs + ys) + p.events;
  }

  // ----- one call of `Read`

  /** What `Read` returns: an instruction, false at the end record, true without an instruction when the end was
      seen in an earlier call, or a failure. */
  datatype Result = Returned(inst: Dynamic) | EndOfTrace | AlreadyEnded | Unreadable

  datatype ReadOut = ReadOut(state: Reader, rest: seq<byte>, callbacks: seq<Event>, result: Result)

  /** `Read` consumes records, invoking callbacks, up to and including the next instruction or the end record. */
  function ReadNext(r: Reader, s: seq<byte>): (out: ReadOut)
    requires Consistent(r)
    ensures Consistent(out.state)
    ensures out.result.Returned? ==> |out.rest| < |s|
    ensures out.result.AlreadyEnded? == r.seenEnd
    decreases |s|
  {
    if r.seenEnd then ReadOut(r, s, [], AlreadyEnded)
    else if Decode(s).Bad? then ReadOut(r, s, [], Unreadable)
    else
      DecodeLength(s);
      var m, n := Decode(s).msg, Decode(s).length;
      var e := Consume(r, m, s[..n]);
      if e.Fault? then ReadOut(r, s, [], Unreadable)
      else if m.Short? || m.Ext? then
        ExecutedOne(r, m);
        ReadOut(e.state, s[n..], [], Returned(e.events[0].inst))
      else if m.End? then ReadOut(e.state, s[n..], [], EndOfTrace)
      else
        StaysOpen(r, m);
        var out := ReadNext(e.state, s[n..]);
        out.(callbacks := e.events + out.callbacks)
  }

  lemma ExecutedOne(r: Reader, m: Msg)
    requires Consistent(r) && (m.Short? || m.Ext?)
    ensures Apply(r, m).Effect? ==> |Apply(r, m).events| == 1 && Apply(r, m).events[0].Executed?
  {
  }

  /** Calling `Read` until it reports the end plays back the stream. */
  lemma {:induction false} ReplayByReads(r: Reader, s: seq<byte>)
    requires Consistent(r) && !r.seenEnd
    ensures var out := ReadNext(r, s);
            Replay(r, s) == match out.result
                            case Returned(inst) => After(out.callbacks + [Executed(inst)], Replay(out.state, out.rest))
                            case EndOfTrace => Finished(out.state, out.callbacks, out.rest)
                            case AlreadyEnded => Broken([])
                            case Unreadable => Broken(out.callbacks)
    decreases |s|
  {
    hide Decode, Apply, Checksum;
    if Decode(s).Got? {
      DecodeLength(s);
      var m, n := Decode(s).msg, Decode(s).length;
      var e := Consume(r, m, s[..n]);
      if e.Effect? {
        var out := ReadNext(r, s);
        if m.Short? || m.Ext? {
          ExecutedOne(r, m);
          assert [] + [e.events[0]] == e.events;
        } else if m.End? {
          EndEvents(r);
        } else {
          StaysOpen(r, m);
          ReplayByReads(e.state, s[n..]);
          var more := ReadNext(e.state, s[n..]);
          if more.result.Returned? {
            AfterAfter(e.events, more.callbacks + [Executed(more.result.inst)], Replay(more.state, more.rest));
            assert e.events + (more.callbacks + [Executed(more.result.inst)]) ==
              out.callbacks + [Executed(more.result.inst)];
          }
        }
      }
    }
  }

  lemma EndEvents(r: Reader)
    requires Consistent(r)
    ensures Apply(r, End) == Effect(r.(seenEnd := true), [])
  {
  }
}
