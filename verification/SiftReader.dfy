/** `Sift::Reader`, with its input stream, caches, callbacks and response stream. */
module SiftReader {
  import opened Basics
  import opened Bytes
  import opened SiftFormat
  import opened SiftImage
  import opened SiftReplay
  import opened SiftMemory
  import opened SiftReply

  /** A decoded instruction. `next` is the probable successor, so that most lookups need no map access. */
  class StaticInstruction {
    const addr: u64
    const size: int
    const data: seq<byte>
    var next: StaticInstruction?

    constructor (addr: u64, size: int, data: seq<byte>)
      ensures this.addr == addr && this.size == size && this.data == data && next == null
    {
      this.addr := addr;
      this.size := size;
      this.data := data;
      this.next := null;
    }

    function Value(): Static {
      Static(addr, size, data)
    }
  }

  /** What the reader has put on the response stream: an answer to a request, or a memory request of its own. */
  datatype Sent = Answered(request: Msg) | Asked(access: Access)

  /** Every callback answers with a value of the size its reply record has. */
  ghost predicate Answering(handler: Msg -> seq<byte>) {
    forall m :: Blocking(m) ==> |handler(m)| == ReplySize(m)
  }

  ghost predicate SentBytes(s: Sent, bytes: seq<byte>, handler: Msg -> seq<byte>) {
    match s
    case Answered(m) =>
      Blocking(m) && |handler(m)| == ReplySize(m)
      && exists pad: seq<byte> :: |pad| == 2 && bytes == Reply(m, handler(m), pad)
    case Asked(a) =>
      (a.Save? ==> |a.data| < TWO32) && exists pad: seq<byte> :: |pad| == 2 && bytes == Request(a, pad)
  }

  /** The response stream is exactly the records in `sent`, in order. */
  ghost predicate Carries(responses: seq<byte>, sent: seq<Sent>, handler: Msg -> seq<byte>)
    decreases |sent|
  {
    if sent == [] then responses == []
    else
      exists k :: 0 <= k <= |responses| && SentBytes(sent[|sent| - 1], responses[k..], handler)
                  && Carries(responses[..k], sent[..|sent| - 1], handler)
  }

  lemma CarriesSnoc(responses: seq<byte>, sent: seq<Sent>, handler: Msg -> seq<byte>, s: Sent, bytes: seq<byte>)
    requires Carries(responses, sent, handler) && SentBytes(s, bytes, handler)
    ensures Carries(responses + bytes, sent + [s], handler)
  {
    hide SentBytes;
    var all, k := responses + bytes, |responses|;
    assert all[k..] == bytes && all[..k] == responses;
    assert (sent + [s])[..|sent|] == sent;
  }

  lemma AskedBytes(a: Access, pad: seq<byte>, handler: Msg -> seq<byte>)
    requires (a.Save? ==> |a.data| < TWO32) && |pad| == 2
    ensures SentBytes(Asked(a), Request(a, pad), handler)
  {
  }

  /** The requests among the callbacks, each answered. */
  function AnswersTo(callbacks: seq<Event>): seq<Sent> {
    if callbacks == [] then []
    else (if callbacks[0].Called? && Asks(callbacks[0].msg) then [Answered(callbacks[0].msg)] else [])
         + AnswersTo(callbacks[1..])
  }

  lemma {:induction false} AnswersConcat(xs: seq<Event>, ys: seq<Event>)
    ensures AnswersTo(xs + ys) == AnswersTo(xs) + AnswersTo(ys)
  {
    if xs == [] {
      assert xs + ys == ys;
    } else {
      assert (xs + ys)[1..] == xs[1..] + ys;
      AnswersConcat(xs[1..], ys);
    }
  }

  ghost function CachedIn(scache: map<u64, StaticInstruction>): map<u64, Static> {
    map a | a in scache :: scache[a].Value()
  }

  ghost function LinksIn(scache: map<u64, StaticInstruction>): map<u64, u64>
    reads scache.Values
  {
    map a | a in scache && scache[a].next != null :: scache[a].next.addr
  }

  lemma CachedMore(scache: map<u64, StaticInstruction>, s: StaticInstruction)
    ensures CachedIn(scache[s.addr := s]) == CachedIn(scache)[s.addr := s.Value()]
  {
  }

  lemma LinksMore(scache: map<u64, StaticInstruction>, s: StaticInstruction)
    requires s.addr !in scache && s.next == null
    ensures LinksIn(scache[s.addr := s]) == LinksIn(scache)
  {
  }

  class TraceReader {
    const input: seq<byte>
    var pos: nat
    var checksum: byte
    var last: u64
    var icache: Image
    var vcache: map<u64, u64>
    var scache: map<u64, StaticInstruction>
    var lastSinst: StaticInstruction?
    var isa: u32
    var seenEnd: bool

    /** The registered callbacks' answers to requests, and everything sent back to the writer. */
    const handler: Msg -> seq<byte>
    var responses: seq<byte>
    ghost var sent: seq<Sent>

    ghost predicate Valid()
      reads this, scache.Values
    {
      && pos <= |input|
      && checksum == Checksum(0, input[..pos])
      && Answering(handler) && Carries(responses, sent, handler)
      && CacheValid()
    }

    /** Every pointer leads to the object stored in the cache under that object's own address. */
    ghost predicate CacheValid()
      reads this`scache, this`lastSinst, scache.Values
    {
      && (forall a :: a in scache ==> scache[a].addr == a)
      && (forall a :: a in scache && scache[a].next != null ==> Stored(scache[a].next))
      && (lastSinst != null ==> Stored(lastSinst))
    }

    ghost predicate Stored(s: StaticInstruction)
      reads this`scache
    {
      s.addr in scache && scache[s.addr] == s
    }

    /** The reader as a value: pointers become the addresses they lead to. */
    ghost function State(): Reader
      reads this, scache.Values
    {
      Reader(last, icache, vcache, Cached(), Links(), Previous(), isa, checksum, seenEnd)
    }

    ghost function Cached(): map<u64, Static>
      reads this`scache
    {
      CachedIn(scache)
    }

    ghost function Links(): map<u64, u64>
      reads this`scache, scache.Values
    {
      LinksIn(scache)
    }

    ghost function Previous(): Option<u64>
      reads this`lastSinst
    {
      if lastSinst == null then None else Some(lastSinst.addr)
    }

    lemma StateConsistent()
      requires Valid()
      ensures Consistent(State())
    {
    }

    constructor (input: seq<byte>, handler: Msg -> seq<byte>)
      requires Answering(handler)
      ensures Valid() && State() == INITIAL && pos == 0 && this.input == input && this.handler == handler
      ensures scache == map[] && sent == []
    {
      this.input, this.handler := input, handler;
      responses, sent := [], [];
      pos, checksum, last, isa := 0, 0, 0, 0;
      icache, vcache, scache := map[], map[], map[];
      lastSinst, seenEnd := null, false;
    }

    // ----- static instructions

    /** Copies the bytes of an instruction out of the code image, one page at a time. */
    method StaticInfo(addr: u64, size: nat) returns (data: Option<seq<byte>>)
      ensures data == Rebuild(icache, addr, size)
    {
      hide Rebuild;
      var bytes: seq<byte> := [];
      var base: u64 := PageOf(addr);
      var left := size;
      var offset := addr % PAGE;
      RebuildNothing(icache, addr, size);
      while left > 0
        invariant 0 <= left <= size
        invariant base % PAGE == 0 && 0 <= offset < PAGE && base + offset < TWO64
        invariant Rebuild(icache, addr, size) == Joined(bytes, Rebuild(icache, base + offset, left))
      {
        var n := if left < PAGE - offset then left else PAGE - offset;
        if base !in icache {
          InPage(base, offset);
          RebuildMissing(icache, base + offset, left);
          return None;
        }
        NextChunk(icache, bytes, base, offset, left, n);
        if !HasBytes(icache[base], offset, n) {
          return None;
        }
        var chunk := PageBytes(icache[base], offset, n);
        NextPage(base, offset, n);
        bytes := bytes + chunk;
        left := left - n;
        base := Add64(base, PAGE);
        offset := 0;
      }
      RebuildEmpty(icache, base + offset, base + offset);
      assert bytes + [] == bytes;
      data := Some(bytes);
    }

    /** The instruction at `addr`: through the previous instruction's pointer, from the cache, or rebuilt. Null
        stands for a failed assertion of the source. */
    method Find(addr: u64, size: nat) returns (sinst: StaticInstruction?)
      requires Valid() && Consistent(State())
      ensures (sinst == null) == Lookup(State(), addr, size).None?
      ensures sinst != null ==> Lookup(State(), addr, size) == Some(sinst.Value())
      ensures sinst != null ==> Stored(sinst) || (addr !in scache && fresh(sinst) && sinst.next == null)
    {
      hide Rebuild, Checksum;
      if lastSinst != null && lastSinst.next != null && lastSinst.next.addr == addr {
        sinst := lastSinst.next;
        assert Stored(sinst) by { assert scache[lastSinst.addr] == lastSinst; }
        assert Shortcut(State(), addr);
      } else {
        assert !Shortcut(State(), addr);
        if addr in scache {
          sinst := scache[addr];
          if sinst.size != size {
            return null;
          }
        } else {
          var data := StaticInfo(addr, size);
          if data.None? {
            return null;
          }
          sinst := new StaticInstruction(addr, size, data.value);
        }
      }
    }

    method Insert(sinst: StaticInstruction)
      requires Valid() && sinst.addr !in scache && sinst.next == null
      modifies this`scache
      ensures Valid() && Stored(sinst) && scache == old(scache)[sinst.addr := sinst]
      ensures Cached() == old(Cached())[sinst.addr := sinst.Value()] && Links() == old(Links())
    {
      hide Checksum, Carries, Answering, CachedIn, LinksIn;
      CachedMore(scache, sinst);
      LinksMore(scache, sinst);
      scache := scache[sinst.addr := sinst];
    }

    /** Makes `sinst` the previous instruction, and the probable successor of the one before if that has none. */
    method Link(sinst: StaticInstruction)
      requires Valid() && Stored(sinst)
      modifies this`lastSinst, scache.Values
      ensures Valid()
      ensures Cached() == old(Cached()) && Previous() == Some(sinst.addr)
      ensures Links() ==
        if old(lastSinst != null && lastSinst.addr !in Links()) then old(Links()[lastSinst.addr := sinst.addr])
        else old(Links())
    {
      hide Checksum;
      if lastSinst != null && lastSinst.next == null {
        assert forall a :: a in scache && a != lastSinst.addr ==> scache[a] != lastSinst;
        lastSinst.next := sinst;
      }
      lastSinst := sinst;
    }

    method GetStatic(addr: u64, size: nat) returns (sinst: StaticInstruction?)
      requires Valid() && Consistent(State())
      modifies this`scache, this`lastSinst, scache.Values
      ensures (sinst == null) == Lookup(old(State()), addr, size).None?
      ensures sinst != null ==>
              && Valid() && fresh(scache.Values - old(scache.Values))
              && Lookup(old(State()), addr, size) == Some(sinst.Value())
              && State() == Remember(old(State()), sinst.Value())
    {
      hide Lookup, Checksum, Cached, Links, Carries, Answering;
      sinst := Find(addr, size);
      if sinst != null {
        if addr !in scache {
          Insert(sinst);
        } else {
          StoredIsCached(sinst);
        }
        Link(sinst);
      }
    }

    lemma StoredIsCached(sinst: StaticInstruction)
      requires Stored(sinst)
      ensures Cached()[sinst.addr := sinst.Value()] == Cached()
    {
    }

    // ----- the input stream

    ghost function Rest(): seq<byte>
      requires pos <= |input|
      reads this
    {
      input[pos..]
    }

    /** `ChecksumVistream::read`: every byte read is folded into the checksum. */
    method Take(n: nat) returns (s: seq<byte>)
      requires Valid() && n <= |input| - pos
      modifies this`pos, this`checksum
      ensures Valid() && pos == old(pos) + n
      ensures s == old(Rest())[..n] && |s| == n && Rest() == old(Rest())[n..]
      ensures checksum == Checksum(old(checksum), s)
    {
      hide CacheValid, Checksum;
      s := input[pos..pos + n];
      checksum := Fold(checksum, s);
      assert input[..pos + n] == input[..pos] + s;
      ChecksumConcat(0, input[..pos], s);
      pos := pos + n;
    }

    method Take64() returns (n: u64)
      requires Valid() && 8 <= |input| - pos
      modifies this`pos, this`checksum
      ensures Valid() && pos == old(pos) + 8 && n == U64(old(Rest())[..8]) && Rest() == old(Rest())[8..]
      ensures checksum == Checksum(old(checksum), old(Rest())[..8])
    {
      hide CacheValid, Carries, Answering, Checksum, FromLE;
      var s := Take(8);
      n := U64(s);
    }

    method Take32() returns (n: u32)
      requires Valid() && 4 <= |input| - pos
      modifies this`pos, this`checksum
      ensures Valid() && pos == old(pos) + 4 && n == U32(old(Rest())[..4]) && Rest() == old(Rest())[4..]
      ensures checksum == Checksum(old(checksum), old(Rest())[..4])
    {
      hide CacheValid, Carries, Answering, Checksum, FromLE;
      var s := Take(4);
      n := U32(s);
    }

    method Take16() returns (n: u16)
      requires Valid() && 2 <= |input| - pos
      modifies this`pos, this`checksum
      ensures Valid() && pos == old(pos) + 2 && n == U16(old(Rest())[..2]) && Rest() == old(Rest())[2..]
      ensures checksum == Checksum(old(checksum), old(Rest())[..2])
    {
      hide CacheValid, Carries, Answering, Checksum, FromLE;
      var s := Take(2);
      n := U16(s);
    }

    /** A string preceded by its 16-bit length. */
    method TakeCounted() returns (p: Prefix)
      requires Valid()
      modifies this`pos, this`checksum
      ensures p == ReadCounted(old(Rest()))
      ensures p.Prefix? ==> Valid() && pos == old(pos) + p.length && Rest() == old(Rest())[p.length..]
    {
      hide CacheValid, Carries, Answering, Checksum, FromLE;
      if |input| - pos < 2 {
        return Cut;
      }
      var n := Take16();
      if |input| - pos < n {
        return Cut;
      }
      var text := Take(n);
      p := Prefix(text, 2 + |text|);
    }

    /** The numbers between the image name and the file name of an announcement. */
    method TakePlace() returns (offset: u64, line: u32, column: u32)
      requires Valid() && 16 <= |input| - pos
      modifies this`pos, this`checksum
      ensures Valid() && pos == old(pos) + 16 && Rest() == old(Rest())[16..]
      ensures var t := old(Rest()); offset == U64(t[..8]) && line == U32(t[8..12]) && column == U32(t[12..16])
    {
      hide CacheValid, Carries, Answering, Checksum, FromLE;
      ghost var t := Rest();
      offset := Take64();
      line := Take32();
      column := Take32();
      assert t[8..12] == t[8..][..4] && t[12..16] == t[8..][4..][..4] && t[16..] == t[8..][4..][4..];
    }

    method ReadAnnounce() returns (m: Option<Msg>)
      requires Valid()
      modifies this`pos, this`checksum
      ensures m.None? == DecodeAnnounce(old(Rest())).Bad?
      ensures m.Some? ==> Valid() && old(pos) <= pos && DecodeAnnounce(old(Rest())) == Got(m.value, pos - old(pos))
    {
      hide CacheValid, Carries, Answering, Checksum, FromLE, ReadCounted;
      ghost var t := Rest();
      if |input| - pos < 8 {
        return None;
      }
      var eip := Take64();
      var name := TakeCounted();
      if name.Cut? {
        return None;
      }
      var imgname := TakeCounted();
      if imgname.Cut? || |input| - pos < 16 {
        return None;
      }
      var offset, line, column := TakePlace();
      var filename := TakeCounted();
      if filename.Cut? {
        return None;
      }
      m := Some(RoutineAnnounce(eip, name.text, imgname.text, offset, line, column, filename.text));
    }

    method TakeThree() returns (a: u64, b: u64, c: u64)
      requires Valid() && 24 <= |input| - pos
      modifies this`pos, this`checksum
      ensures Valid() && pos == old(pos) + 24
      ensures var t := old(Rest()); a == U64(t[..8]) && b == U64(t[8..16]) && c == U64(t[16..24])
    {
      hide CacheValid, Carries, Answering, Checksum, FromLE;
      ghost var t := Rest();
      a := Take64();
      b := Take64();
      c := Take64();
      assert t[8..16] == t[8..][..8] && t[16..24] == t[8..][8..][..8];
    }

    /** Records made of a fixed number of fixed-width fields. */
    method ReadNumbers(kind: byte, size: u32) returns (m: Option<Msg>)
      requires Valid() && size <= |input| - pos && kind in {13, 22, 26, 33}
      modifies this`pos, this`checksum
      ensures m.None? == DecodeBody(kind, size, old(Rest())).Bad?
      ensures m.Some? ==>
        Valid() && old(pos) <= pos && DecodeBody(kind, size, old(Rest())) == Got(m.value, pos - old(pos))
    {
      hide CacheValid, Carries, Answering, Checksum, FromLE, DecodeAnnounce;
      ghost var t := Rest();
      if kind == 13 && size == 25 {
        var event := Take(1);
        var eip, esp, callEip := TakeThree();
        assert t[1..9] == t[1..][..8] && t[9..17] == t[1..][8..16] && t[17..25] == t[1..][16..24];
        m := Some(RoutineChange(event[0], eip, esp, callEip));
      } else if kind == 22 && size == 16 {
        var vp := Take64();
        var pp := Take64();
        assert t[8..16] == t[8..][..8];
        m := Some(PageMap(vp, pp));
      } else if kind == 26 && size == 18 {
        var icount := Take(1);
        var typ := Take(1);
        var eip := Take64();
        var address := Take64();
        assert t[1] == t[1..][0] && t[2..10] == t[1..][1..][..8] && t[10..18] == t[1..][1..][8..][..8];
        m := Some(CacheOnly(icount[0], typ[0], eip, address));
      } else if kind == 33 && size == 24 {
        var a, b, c := TakeThree();
        m := Some(Magic(a, b, c));
      } else {
        m := None;
      }
    }

    /** Records with a string of bytes, and records of unknown type, which are skipped. */
    method ReadStrings(kind: byte, size: u32) returns (m: Option<Msg>)
      requires Valid() && size <= |input| - pos
      requires kind in {23, 24, 27, 28, 35} || !Handled(kind)
      modifies this`pos, this`checksum
      ensures m.None? == DecodeBody(kind, size, old(Rest())).Bad?
      ensures m.Some? ==>
        Valid() && old(pos) <= pos && DecodeBody(kind, size, old(Rest())) == Got(m.value, pos - old(pos))
    {
      hide CacheValid, Carries, Answering, Checksum, FromLE, DecodeAnnounce;
      ghost var t := Rest();
      if (kind == 23 && size == 8 + PAGE) || (kind == 24 && size >= 8) {
        var base := Take64();
        var bytes := Take(size - 8);
        assert t[8..size] == t[8..][..size - 8];
        m := Some(if kind == 23 then Icache(base, bytes) else IcacheVariable(base, bytes));
      } else if kind == 27 && size > 1 {
        var fd := Take(1);
        var data := Take(size - 1);
        assert t[1..size] == t[1..][..size - 1];
        m := Some(Output(fd[0], data));
      } else if (kind == 28 && size > 2) || (kind == 35 && 2 <= size <= 2 + EMU_REQUEST_SIZE) {
        var number := Take16();
        var data := Take(size - 2);
        assert t[2..size] == t[2..][..size - 2];
        m := Some(if kind == 28 then Syscall(number, data) else Emu(number, data));
      } else if !Handled(kind) {
        var body := Take(size);
        m := Some(Unknown(kind, body));
      } else {
        m := None;
      }
    }

    /** Everything behind the header of a record other than a checksum. */
    method ReadBody(kind: byte, size: u32) returns (m: Option<Msg>)
      requires Valid() && kind != CHECKSUM
      modifies this`pos, this`checksum
      ensures m.None? == DecodeBody(kind, size, old(Rest())).Bad?
      ensures m.Some? ==>
        Valid() && old(pos) <= pos && DecodeBody(kind, size, old(Rest())) == Got(m.value, pos - old(pos))
    {
      hide CacheValid, Carries, Answering, Checksum, FromLE, DecodeAnnounce;
      if kind == 14 {
        m := ReadAnnounce();
      } else if |input| - pos < size {
        m := None;
      } else if kind in {13, 22, 26, 33} {
        m := ReadNumbers(kind, size);
      } else if kind in {1, 3, 7, END} {
        m := if size != 0 then None
             else Some(if kind == 1 then Sync else if kind == 3 then NewThread else if kind == 7 then Fork else End);
      } else if kind in {10, 15, 30} {
        if size != 4 {
          return None;
        }
        var n := Take32();
        m := Some(if kind == 10 then InstructionCount(n) else if kind == 15 then ISAChange(n) else Join(n));
      } else {
        m := ReadStrings(kind, size);
      }
    }

    // ----- the effect of a record

    /** Stores code bytes that may straddle pages, one page at a time. */
    method StoreCode(base: u64, bytes: seq<byte>)
      requires Valid()
      modifies this`icache
      ensures Valid() && icache == Store(old(icache), base, bytes)
    {
      hide Store, WriteInto, CacheValid, Checksum, Carries, Answering;
      var address: u64 := base;
      var i := 0;
      assert bytes[0..] == bytes;
      while i < |bytes|
        invariant 0 <= i <= |bytes|
        invariant Store(old(icache), base, bytes) == Store(icache, address, bytes[i..])
        invariant Valid()
      {
        var page := PageOf(address);
        var offset := address % PAGE;
        var left := |bytes| - i;
        var n := if left < PAGE - offset then left else PAGE - offset;
        ghost var was := icache;
        assert bytes[i..] == bytes[i..i + n] + bytes[i + n..];
        StoreSplit(icache, address, bytes[i..i + n], bytes[i + n..]);
        assert PageOf(address) + offset == address;
        NextPage(page, offset, n);
        StoreInPage(icache, page, offset, bytes[i..i + n]);
        if page !in icache {
          icache := icache[page := map[]];
        }
        icache := icache[page := WriteInto(icache[page], offset, bytes[i..i + n])];
        assert icache == Store(was, address, bytes[i..i + n]);
        StoreNothing(icache, Add64(address, n), Add64(page, PAGE));
        i := i + n;
        address := Add64(page, PAGE);
        assert i == |bytes| ==> bytes[i..] == [];
      }
      assert bytes[i..] == [];
      StoreNothing(icache, address, address);
    }

    /** Invokes the callback for a request and sends its answer. */
    method Respond(m: Msg)
      requires Valid() && Blocking(m)
      modifies this`responses, this`sent
      ensures Valid() && sent == old(sent) + [Answered(m)]
    {
      hide CacheValid, Checksum, Carries;
      var pad := Uninitialised(2);
      var reply := Reply(m, handler(m), pad);
      CarriesSnoc(responses, sent, handler, Answered(m), reply);
      responses := responses + reply;
      sent := sent + [Answered(m)];
    }

    method Dispatch(m: Msg) returns (callbacks: seq<Event>)
      requires Valid() && Consistent(State()) && !m.Short? && !m.Ext? && !m.Sum?
      modifies this`icache, this`vcache, this`isa, this`seenEnd, this`responses, this`sent
      ensures Valid()
      ensures Apply(old(State()), m) == Effect(State(), callbacks)
      ensures sent == old(sent) + AnswersTo(callbacks)
    {
      hide CacheValid, Checksum, Carries, Store, WholePage, Answering, Cached, Links;
      callbacks := [];
      if m.End? {
        seenEnd := true;
      } else if m.Icache? {
        icache := icache[m.base := WholePage(m.bytes)];
      } else if m.IcacheVariable? {
        StoreCode(m.base, m.bytes);
      } else if m.PageMap? {
        vcache := vcache[m.vp := m.pp];
      } else if m.ISAChange? {
        isa := m.isa;
      } else if !m.Unknown? {
        callbacks := [Called(m)];
        assert callbacks[1..] == [];
        if Blocking(m) {
          Respond(m);
        }
      }
    }

    // ----- instructions

    method TakeAddresses(n: nat) returns (a: seq<u64>)
      requires Valid() && 8 * n <= |input| - pos
      modifies this`pos, this`checksum
      ensures Valid() && pos == old(pos) + 8 * n && a == ReadAddresses(old(Rest()), n)
    {
      hide CacheValid, Carries, Answering, Checksum, FromLE;
      a := [];
      for i := 0 to n
        invariant Valid() && pos == old(pos) + 8 * i && lastSinst == old(lastSinst)
        invariant ReadAddresses(old(Rest()), n) == a + ReadAddresses(Rest(), n - i)
      {
        ghost var s := Rest();
        var address := Take64();
        assert a + ([address] + ReadAddresses(s[8..], n - i - 1)) == (a + [address]) + ReadAddresses(s[8..], n - i - 1);
        a := a + [address];
      }
    }

    /** The fixed part and the data addresses of an instruction record. */
    method ReadInstructionRecord() returns (m: Option<Msg>)
      requires Valid() && pos < |input| && input[pos] != 0
      modifies this`pos, this`checksum
      ensures m.None? == Decode(old(Rest())).Bad?
      ensures m.Some? ==> Valid() && old(pos) <= pos && Decode(old(Rest())) == Got(m.value, pos - old(pos))
      ensures m.Some? ==> (m.value.Short? || m.value.Ext?) && m.value.size >= 0
    {
      hide CacheValid, Carries, Answering, Checksum, FromLE, DecodeBody, ReadAddresses;
      ghost var s := Rest();
      var b := input[pos];
      assert b == s[0];
      if |input| - pos < 8 {
        return None;
      }
      if b % 16 != 0 {
        var rec := Take(8);
        var n := rec[0] / 16 % 4;
        if n > MAX_ADDRESSES || |input| - pos < 8 * n {
          return None;
        }
        var addresses := TakeAddresses(n);
        m := Some(Short(rec[0] % 16, rec[0] / 64 % 2 == 1, rec[0] / 128 == 1, addresses));
      } else {
        if |input| - pos < 16 {
          return None;
        }
        var rec := Take(16);
        var n := rec[1] % 4;
        if n > MAX_ADDRESSES || |input| - pos < 8 * n {
          return None;
        }
        assert rec[8..16] == s[8..16];
        var addresses := TakeAddresses(n);
        m := Some(Ext(rec[0] / 16, rec[1] / 4 % 2 == 1, rec[1] / 8 % 2 == 1, rec[1] / 16 % 2 == 1, rec[1] / 32 % 2 == 1,
                      U64(rec[8..16]), addresses));
      }
    }

    /** Advances the running address and looks up the static instruction. */
    method Run(m: Msg) returns (inst: Option<Dynamic>)
      requires Valid() && Consistent(State()) && (m.Short? || m.Ext?) && m.size >= 0
      modifies this`last, this`scache, this`lastSinst, scache.Values
      ensures inst.None? == Apply(old(State()), m).Fault?
      ensures inst.Some? ==>
              && Valid() && fresh(scache.Values - old(scache.Values))
              && Apply(old(State()), m) == Effect(State(), [Executed(inst.value)])
    {
      hide CacheValid, Carries, Answering, Checksum, Rebuild, Cached, Links;
      var addr := if m.Short? then last else m.addr;
      var isPredicate := m.Ext? && m.isPredicate;
      var executed := m.Short? || m.executed;
      ghost var r := State();
      last := Add64(addr, m.size);
      assert State() == r.(last := last);
      LookupIgnoresLast(r, last, addr, m.size);
      var sinst := GetStatic(addr, m.size);
      if sinst == null {
        return None;
      }
      inst := Some(Dynamic(sinst.Value(), m.addresses, m.isBranch, m.taken, isPredicate, executed, isa));
    }

    // ----- the main loop

    /** A checksum record: the header was already folded into the register, so its bytes are XORed out again
        before the comparison. */
    method ReadChecksum(header: seq<byte>, size: u32, ghost before: byte)
      returns (value: Option<u32>, callbacks: seq<Event>)
      requires Valid() && checksum == Checksum(before, header)
      modifies this`pos, this`checksum
      ensures value.None? == DecodeBody(CHECKSUM, size, old(Rest())).Bad?
      ensures value.Some? ==>
              && Valid() && pos == old(pos) + 4 && size == 4 && value.value == U32(old(Rest())[..4])
              && callbacks == [Checked(value.value == before)]
    {
      hide CacheValid, Carries, Answering, Checksum, FromLE;
      callbacks := [];
      if size != 4 || |input| - pos < 4 {
        return None, callbacks;
      }
      var current := Fold(checksum, header);
      ChecksumUndo(before, header);
      var expected := Take32();
      return Some(expected), [Checked(expected == current)];
    }

    /** A record that is not an instruction. */
    method ReadOther() returns (m: Option<Msg>, callbacks: seq<Event>)
      requires Valid() && Consistent(State()) && pos < |input| && input[pos] == 0
      modifies this`pos, this`checksum, this`icache, this`vcache, this`isa, this`seenEnd, this`responses, this`sent
      ensures m.None? == Decode(old(Rest())).Bad?
      ensures m.Some? ==>
              && Valid() && old(pos) <= pos && Decode(old(Rest())) == Got(m.value, pos - old(pos))
              && !m.value.Short? && !m.value.Ext?
              && Apply(old(State()), m.value) == Effect(State().(checksum := old(checksum)), callbacks)
              && sent == old(sent) + AnswersTo(callbacks)
    {
      hide CacheValid, Carries, Answering, Checksum, FromLE, DecodeBody, Apply, Cached, Links;
      ghost var s, r := Rest(), State();
      callbacks := [];
      if |input| - pos < 8 {
        return None, callbacks;
      }
      var header := Take(8);
      var kind, size := header[1], U32(header[4..8]);
      assert header[4..8] == s[4..8];
      if kind == CHECKSUM {
        ghost var t := Rest();
        var value;
        value, callbacks := ReadChecksum(header, size, r.checksum);
        if value.None? {
          return None, callbacks;
        }
        SumDecoded(size, t);
        SumApplied(r, value.value);
        m := Some(Sum(value.value));
        assert AnswersTo(callbacks) == [] by { assert callbacks[1..] == []; }
      } else {
        ghost var t := Rest();
        m := ReadBody(kind, size);
        if m.None? {
          return None, callbacks;
        }
        NotInstruction(kind, size, t);
        ghost var c := checksum;
        ApplyIgnoresChecksum(r, c, m.value);
        assert State() == r.(checksum := c);
        callbacks := Dispatch(m.value);
      }
    }

    /** The next record, folded into the checksum. */
    ghost predicate ReadsRecord(r: Reader, s: seq<byte>, m: Msg, events: seq<Event>)
      requires Consistent(r)
      reads this, scache.Values
    {
      && Valid() && Consistent(State()) && Decode(s).Got? && Decode(s).msg == m && Decode(s).length <= |s|
      && Rest() == s[Decode(s).length..] && Consume(r, m, s[..Decode(s).length]) == Effect(State(), events)
    }

    method NextInstruction() returns (inst: Option<Dynamic>, ghost m: Option<Msg>)
      requires Valid() && Consistent(State()) && !seenEnd && pos < |input| && input[pos] != 0
      modifies this`pos, this`checksum, this`last, this`scache, this`lastSinst, scache.Values
      ensures sent == old(sent)
      ensures inst.None? ==> ReadNext(old(State()), old(Rest())) == ReadOut(old(State()), old(Rest()), [], Unreadable)
      ensures inst.Some? ==>
              && m.Some? && (m.value.Short? || m.value.Ext?) && fresh(scache.Values - old(scache.Values))
              && ReadsRecord(old(State()), old(Rest()), m.value, [Executed(inst.value)])
    {
      hide CacheValid, Carries, Answering, Checksum, Decode, Apply, ReadNext, Cached, Links;
      hide Consume, Consistent;
      ghost var r, s := State(), Rest();
      var msg := TakeInstruction();
      m := msg;
      if msg.None? {
        ReadBad(r, s);
        return None, m;
      }
      ghost var rest := Rest();
      inst := Run(msg.value);
      ReadInstruction(r, s);
      if inst.Some? {
        StateConsistent();
        assert Rest() == rest;
      }
    }

    /** The record is taken, and running it will be what the specification makes of it. */
    method TakeInstruction() returns (m: Option<Msg>)
      requires Valid() && Consistent(State()) && pos < |input| && input[pos] != 0
      modifies this`pos, this`checksum
      ensures m.None? ==> Decode(old(Rest())).Bad?
      ensures m.Some? ==>
              && Valid() && Consistent(State()) && (m.value.Short? || m.value.Ext?) && m.value.size >= 0
              && var d := Decode(old(Rest()));
                 && d.Got? && d.msg == m.value && d.length <= |old(Rest())| && Rest() == old(Rest())[d.length..]
                 && Consume(old(State()), m.value, old(Rest())[..d.length]) == Apply(State(), m.value)
    {
      hide CacheValid, Carries, Answering, Checksum, Decode, Apply, Consume, Cached, Links;
      ghost var r, s, p := State(), Rest(), pos;
      m := ReadInstructionRecord();
      if m.Some? {
        ConsumedSum(0, input, p, pos);
        assert State() == r.(checksum := checksum);
        ConsumeIsApply(r, checksum, m.value, s[..pos - p]);
      }
    }

    method NextOther() returns (m: Option<Msg>, callbacks: seq<Event>)
      requires Valid() && Consistent(State()) && !seenEnd && pos < |input| && input[pos] == 0
      modifies this`pos, this`checksum, this`icache, this`vcache, this`isa, this`seenEnd, this`responses, this`sent
      ensures m.None? ==> ReadNext(old(State()), old(Rest())) == ReadOut(old(State()), old(Rest()), [], Unreadable)
      ensures m.Some? ==>
              && !m.value.Short? && !m.value.Ext? && sent == old(sent) + AnswersTo(callbacks)
              && ReadsRecord(old(State()), old(Rest()), m.value, callbacks)
    {
      hide CacheValid, Carries, Answering, Checksum, Decode, Apply, ReadNext, Cached, Links;
      ghost var r, s, p := State(), Rest(), pos;
      m, callbacks := ReadOther();
      if m.None? {
        ReadBad(r, s);
        return;
      }
      ConsumedSum(0, input, p, pos);
      StateConsistent();
      assert Rest() == s[pos - p..];
    }

    /** One record of the main loop: either `Read` goes on behind it, or it returns. */
    method ReadRecord() returns (result: Option<Result>, callbacks: seq<Event>)
      requires Valid() && Consistent(State()) && !seenEnd
      modifies this, scache.Values
      ensures result != Some(Unreadable) ==>
              && Valid() && Consistent(State()) && fresh(scache.Values - old(scache.Values)) && old(pos) < pos
              && sent == old(sent) + AnswersTo(callbacks)
      ensures result.None? ==>
              ReadNext(old(State()), old(Rest())) == Later(callbacks, ReadNext(State(), Rest()))
      ensures result.Some? ==>
              ReadNext(old(State()), old(Rest())) ==
              (if result.value.Unreadable? then ReadOut(old(State()), old(Rest()), [], Unreadable)
               else ReadOut(State(), Rest(), [], result.value))
              && callbacks == []
    {
      hide CacheValid, Carries, Answering, Checksum, Decode, Consume, ReadNext, State, AnswersTo;
      ghost var r, s := State(), Rest();
      SeenEnd();
      NoAnswers();
      if pos == |input| {
        ReadNothing(r, s);
        return Some(Unreadable), [];
      }
      if input[pos] != 0 {
        var inst, m := NextInstruction();
        if inst.None? {
          return Some(Unreadable), [];
        }
        DecodeLength(s);
        ReadInstruction(r, s);
        return Some(Returned(inst.value)), [];
      }
      var m;
      m, callbacks := NextOther();
      if m.None? {
        return Some(Unreadable), [];
      }
      ReadSilent(r, s, m.value, callbacks, State());
      result := if m.value.End? then Some(EndOfTrace) else None;
    }

    /** Reads up to the next instruction or the end of the trace. */
    method Read() returns (result: Result, callbacks: seq<Event>)
      requires Valid()
      modifies this, scache.Values
      ensures Consistent(old(State()))
      ensures var out := ReadNext(old(State()), old(Rest()));
              && result == out.result && callbacks == out.callbacks
              && (!result.Unreadable? ==>
                    && Valid() && State() == out.state
                    && Rest() == out.rest && fresh(scache.Values - old(scache.Values))
                    && sent == old(sent) + AnswersTo(callbacks))
    {
      hide CacheValid, Carries, Answering, Checksum, ReadNext, State, AnswersTo, Consistent, Later;
      StateConsistent();
      callbacks := [];
      ghost var goal := ReadNext(State(), Rest());
      LaterNothing(goal);
      NoAnswers();
      assert sent + [] == sent;
      while !seenEnd
        invariant Valid() && Consistent(State()) && fresh(scache.Values - old(scache.Values))
        invariant goal == Later(callbacks, ReadNext(State(), Rest()))
        invariant sent == old(sent) + AnswersTo(callbacks)
        decreases |input| - pos
      {
        ghost var r, s := State(), Rest();
        var done, called := ReadRecord();
        AnswersConcat(callbacks, called);
        if done.Some? {
          LaterFields(callbacks, ReadNext(r, s));
          assert callbacks + [] == callbacks;
          return done.value, callbacks;
        }
        LaterLater(callbacks, called, ReadNext(State(), Rest()));
        callbacks := callbacks + called;
      }
      SeenEnd();
      ReadEnded(State(), Rest());
      LaterFields(callbacks, ReadNext(State(), Rest()));
      assert callbacks + [] == callbacks;
      return AlreadyEnded, callbacks;
    }

    lemma SeenEnd()
      ensures State().seenEnd == seenEnd
    {
    }

    // ----- memory of the traced process

    /** `AccessMemory`: sends a request and takes the response from the trace stream; None when it fails. */
    method AccessMemory(a: Access) returns (data: Option<seq<byte>>)
      requires Valid() && (a.Save? ==> |a.data| < TWO32)
      modifies this`pos, this`checksum, this`responses, this`sent
      ensures sent == old(sent) + [Asked(a)]
      ensures data.Some? == Accept(a, old(Rest())).Success?
      ensures data.Some? ==>
              && Valid() && old(pos) <= pos && Accept(a, old(Rest())) == Success(data.value, pos - old(pos))
    {
      hide CacheValid, Checksum, Carries, FromLE, Answering, Request, SentBytes;
      ghost var s := Rest();
      var pad := Uninitialised(2);
      AskedBytes(a, pad, handler);
      CarriesSnoc(responses, sent, handler, Asked(a), Request(a, pad));
      responses := responses + Request(a, pad);
      sent := sent + [Asked(a)];
      if |input| - pos < 8 {
        return None;
      }
      var header := Take(8);
      assert header[4..8] == s[4..8];
      if header[1] != MEMORY_RESPONSE || |input| - pos < 12 {
        return None;
      }
      var addr := Take64();
      var typ := Take32();
      assert s[8..][..8] == s[8..16] && s[8..][8..][4..] == s[20..];
      if addr != a.addr {
        return None;
      }
      var payload := (U32(header[4..8]) - 12) % TWO32;
      if a.Save? {
        data := if payload != 0 then None else Some([]);
      } else {
        if a.size != payload || |input| - pos < payload {
          return None;
        }
        var bytes := Take(payload);
        assert bytes == s[20..20 + payload];
        data := Some(bytes);
      }
    }
  }

  /** A client that reads until the trace ends, collecting callbacks and instructions. */
  method Play(reader: TraceReader) returns (events: seq<Event>, finished: bool)
    requires reader.Valid() && !reader.seenEnd
    modifies reader, reader.scache.Values
    ensures Consistent(old(reader.State()))
    ensures var p := Replay(old(reader.State()), old(reader.Rest())); finished == p.Finished? && events == p.events
  {
    hide Replay, ReadNext;
    reader.StateConsistent();
    reader.SeenEnd();
    events := [];
    ghost var goal := Replay(reader.State(), reader.Rest());
    AfterNothing(goal);
    while true
      invariant reader.Valid() && Consistent(reader.State()) && !reader.State().seenEnd
      invariant fresh(reader.scache.Values - old(reader.scache.Values))
      invariant goal == After(events, Replay(reader.State(), reader.Rest()))
      decreases |reader.input| - reader.pos
    {
      ghost var r, s := reader.State(), reader.Rest();
      ReplayByReads(r, s);
      var result, callbacks := reader.Read();
      if !result.Returned? {
        return events + callbacks, result.EndOfTrace?;
      }
      StillOpen(r, s);
      AfterAfter(events, callbacks + [Executed(result.inst)], Replay(reader.State(), reader.Rest()));
      events := events + (callbacks + [Executed(result.inst)]);
    }
  }

  lemma {:induction false} StillOpen(r: Reader, s: seq<byte>)
    requires Consistent(r) && ReadNext(r, s).result.Returned?
    ensures !ReadNext(r, s).state.seenEnd
    decreases |s|
  {
    hide Decode, Apply, Checksum;
    DecodeLength(s);
    var m, n := Decode(s).msg, Decode(s).length;
    if m.End? {
      EndEvents(r);
    } else {
      StaysOpen(r, m);
      if !m.Short? && !m.Ext? {
        StillOpen(Consume(r, m, s[..n]).state, s[n..]);
      }
    }
  }

  function Later(callbacks: seq<Event>, out: ReadOut): ReadOut {
    out.(callbacks := callbacks + out.callbacks)
  }

  lemma LaterNothing(out: ReadOut)
    ensures Later([], out) == out
  {
    assert [] + out.callbacks == out.callbacks;
  }

  lemma LaterLater(xs: seq<Event>, ys: seq<Event>, out: ReadOut)
    ensures Later(xs, Later(ys, out)) == Later(xs + ys, out)
  {
    assert xs + (ys + out.callbacks) == (xs + ys) + out.callbacks;
  }

  lemma LaterFields(xs: seq<Event>, out: ReadOut)
    ensures Later(xs, out) == ReadOut(out.state, out.rest, xs + out.callbacks, out.result)
  {
  }

  lemma NoAnswers()
    ensures AnswersTo([]) == []
  {
  }

  lemma SumDecoded(size: u32, t: seq<byte>)
    requires size == 4 && |t| >= 4
    ensures DecodeBody(CHECKSUM, size, t) == Got(Sum(U32(t[..4])), 4)
  {
  }

  lemma SumApplied(r: Reader, value: u32)
    requires Consistent(r)
    ensures Apply(r, Sum(value)) == Effect(r, [Checked(value == r.checksum)])
  {
  }

  /** The register after reading the bytes between two positions. */
  lemma ConsumedSum(c: byte, input: seq<byte>, p: nat, q: nat)
    requires p <= q <= |input|
    ensures Checksum(c, input[..q]) == Checksum(Checksum(c, input[..p]), input[p..][..q - p])
  {
    assert input[..q] == input[..p] + input[p..][..q - p];
    ChecksumConcat(c, input[..p], input[p..][..q - p]);
  }

  /** Apart from checksum records it makes no difference when a record is folded into the checksum. */
  lemma ConsumeIsApply(r: Reader, c: byte, m: Msg, bytes: seq<byte>)
    requires Consistent(r) && Consistent(r.(checksum := c)) && c == Checksum(r.checksum, bytes) && !m.Sum?
    ensures Consume(r, m, bytes) == Apply(r.(checksum := c), m)
  {
    hide Apply, Checksum, Consistent;
    ApplyIgnoresChecksum(r, c, m);
  }

  lemma ReadNothing(r: Reader, s: seq<byte>)
    requires Consistent(r) && !r.seenEnd && s == []
    ensures ReadNext(r, s) == ReadOut(r, s, [], Unreadable)
  {
  }

  lemma ReadBad(r: Reader, s: seq<byte>)
    requires Consistent(r) && !r.seenEnd && Decode(s).Bad?
    ensures ReadNext(r, s) == ReadOut(r, s, [], Unreadable)
  {
  }

  lemma ReadEnded(r: Reader, s: seq<byte>)
    requires Consistent(r) && r.seenEnd
    ensures ReadNext(r, s) == ReadOut(r, s, [], AlreadyEnded)
  {
  }

  lemma ReadInstruction(r: Reader, s: seq<byte>)
    requires Consistent(r) && !r.seenEnd && Decode(s).Got? && Decode(s).length <= |s|
    requires Decode(s).msg.Short? || Decode(s).msg.Ext?
    ensures var e := Consume(r, Decode(s).msg, s[..Decode(s).length]);
            ReadNext(r, s) ==
              if e.Fault? || |e.events| == 0 || !e.events[0].Executed? then ReadOut(r, s, [], Unreadable)
                              else ReadOut(e.state, s[Decode(s).length..], [], Returned(e.events[0].inst))
  {
    hide Apply, Decode, Checksum;
    ExecutedOne(r, Decode(s).msg);
  }

  lemma ReadSilent(r: Reader, s: seq<byte>, m: Msg, events: seq<Event>, r': Reader)
    requires Consistent(r) && !r.seenEnd && Decode(s).Got? && Decode(s).length <= |s|
    requires m == Decode(s).msg && !m.Short? && !m.Ext? && Consume(r, m, s[..Decode(s).length]) == Effect(r', events)
    ensures Consistent(r') && 0 < Decode(s).length
    ensures var rest := s[Decode(s).length..];
            ReadNext(r, s) == if m.End? then ReadOut(r', rest, [], EndOfTrace) else Later(events, ReadNext(r', rest))
    ensures m.End? ==> events == []
  {
    hide Apply, Decode, Checksum;
    DecodeLength(s);
    EndEvents(r);
  }

  lemma LookupIgnoresLast(r: Reader, last: u64, addr: u64, size: nat)
    requires Consistent(r)
    ensures Consistent(r.(last := last)) && Lookup(r.(last := last), addr, size) == Lookup(r, addr, size)
  {
  }

  lemma StoreNothing(image: Image, a: u64, b: u64)
    ensures Store(image, a, []) == image == Store(image, b, [])
  {
  }

  lemma RebuildNothing(image: Image, a: u64, n: nat)
    ensures Rebuild(image, a, n) == Joined([], Rebuild(image, a, n))
    ensures PageOf(a) % PAGE == 0 && PageOf(a) + a % PAGE == a
  {
    var r := Rebuild(image, a, n);
    assert r.Some? ==> [] + r.value == r.value;
  }

  lemma RebuildEmpty(image: Image, a: u64, b: u64)
    ensures Rebuild(image, a, 0) == Some([]) == Rebuild(image, b, 0)
  {
  }

  lemma RebuildMissing(image: Image, a: u64, n: nat)
    requires PageOf(a) !in image && n > 0
    ensures Rebuild(image, a, n) == None
  {
  }

  /** The bytes on one page, and what is left on the next ones. */
  lemma NextChunk(image: Image, bytes: seq<byte>, base: u64, offset: int, left: nat, n: nat)
    requires base % PAGE == 0 && base in image && 0 <= offset < PAGE && base + offset < TWO64
    requires n == if left < PAGE - offset then left else PAGE - offset
    ensures var all := Rebuild(image, base + offset, left);
            if HasBytes(image[base], offset, n)
            then var chunk := PageBytes(image[base], offset, n);
                 Joined(bytes, all) == Joined(bytes + chunk, Rebuild(image, Add64(base, PAGE), left - n))
            else all == None
  {
    hide Rebuild;
    RebuildSplit(image, base + offset, n, left - n);
    RebuildInPage(image, base, offset, n);
    if HasBytes(image[base], offset, n) {
      var chunk := PageBytes(image[base], offset, n);
      NextPage(base, offset, n);
      RebuildEmpty(image, Add64(base + offset, n), Add64(base, PAGE));
      var rest := Rebuild(image, Add64(base + offset, n), left - n);
      assert rest.Some? ==> bytes + (chunk + rest.value) == (bytes + chunk) + rest.value;
    }
  }

  lemma NextPage(base: u64, offset: int, n: nat)
    requires base % PAGE == 0 && 0 <= offset && base + offset < TWO64 && offset + n <= PAGE
    ensures offset + n == PAGE ==> Add64(base + offset, n) == Add64(base, PAGE)
    ensures Add64(base, PAGE) % PAGE == 0
  {
  }
}
