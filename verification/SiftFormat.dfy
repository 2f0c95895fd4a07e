/** The SIFT record layouts: what each record holds, its bytes, and how a reader takes it apart.
    Structure padding is not initialised by the writer, so it is an arbitrary string `pad`. */
module SiftFormat {
  import opened Bytes

  const PAGE: int := 0x1000
  const MAX_ADDRESSES: int := 2
  const EMU_REQUEST_SIZE: int := 16
  const EMU_REPLY_SIZE: int := 48

  const CHECKSUM: byte := 20
  const MEMORY_RESPONSE: byte := 21
  const SYNC_RESPONSE: byte := 25
  const NEW_THREAD_RESPONSE: byte := 29
  const JOIN_RESPONSE: byte := 31
  const FORK_RESPONSE: byte := 32
  const MAGIC_RESPONSE: byte := 34
  const EMU_RESPONSE: byte := 36
  const MEMORY_REQUEST: byte := 37
  const SYSCALL_RESPONSE: byte := 38
  const END: byte := 39
  const SHUTDOWN: byte := 40

  /** One record on the trace stream, without its padding. */
  datatype Msg =
    | Short(size: int, isBranch: bool, taken: bool, addresses: seq<u64>)
    | Ext(size: int, isBranch: bool, taken: bool, isPredicate: bool, executed: bool, addr: u64, addresses: seq<u64>)
    | Sum(value: u32)
    | End
    | Icache(base: u64, bytes: seq<byte>)
    | IcacheVariable(base: u64, bytes: seq<byte>)
    | PageMap(vp: u64, pp: u64)
    | InstructionCount(icount: u32)
    | CacheOnly(count: byte, typ: byte, eip: u64, address: u64)
    | Output(fd: byte, data: seq<byte>)
    | Syscall(number: u16, data: seq<byte>)
    | NewThread
    | Join(thread: u32)
    | Sync
    | Fork
    | Magic(a: u64, b: u64, c: u64)
    | Emu(emuType: u16, request: seq<byte>)
    | RoutineChange(event: byte, eip: u64, esp: u64, callEip: u64)
    | RoutineAnnounce(eip: u64, name: seq<byte>, imgname: seq<byte>, offset: u64, line: u32, column: u32,
                      filename: seq<byte>)
    | ISAChange(isa: u32)
    | Unknown(unknownKind: byte, body: seq<byte>)

  /** The record types that `Reader::Read` has a case for. */
  predicate Handled(kind: byte) {
    kind in {1, 3, 7, 10, 13, 14, 15, 20, 22, 23, 24, 26, 27, 28, 30, 33, 35, 39}
  }

  /** The records whose bytes a reader can tell apart again. */
  predicate WellFormed(m: Msg) {
    match m
    case Short(size, _, _, addresses) => 1 <= size <= 15 && |addresses| <= MAX_ADDRESSES
    case Ext(size, _, _, _, _, _, addresses) => 1 <= size <= 15 && |addresses| <= MAX_ADDRESSES
    case Icache(_, bytes) => |bytes| == PAGE
    case IcacheVariable(_, bytes) => 8 + |bytes| < TWO32
    case Output(_, data) => 0 < |data| < TWO32 - 1
    case Syscall(_, data) => 0 < |data| < TWO32 - 2
    case Emu(_, request) => |request| <= EMU_REQUEST_SIZE
    case RoutineAnnounce(_, name, imgname, _, _, _, filename) =>
      |name| < 0x1_0000 && |imgname| < 0x1_0000 && |filename| < 0x1_0000
    case Unknown(kind, body) => !Handled(kind) && |body| < TWO32
    case _ => true
  }

  // ----- encoding

  function Bit(b: bool): (n: nat) { if b then 1 else 0 }

  function Addresses(a: seq<u64>): (s: seq<byte>)
    ensures |s| == 8 * |a|
  {
    if a == [] then [] else LE64(a[0]) + Addresses(a[1..])
  }

  /** The number of padding bytes inside the fixed part of a record. */
  function PadSize(m: Msg): nat {
    if m.Short? then 7 else if m.Ext? then 6 else 2
  }

  function Kind(m: Msg): byte
    requires !m.Short? && !m.Ext?
  {
    match m
    case Sync => 1
    case NewThread => 3
    case Fork => 7
    case InstructionCount(_) => 10
    case RoutineChange(_, _, _, _) => 13
    case RoutineAnnounce(_, _, _, _, _, _, _) => 14
    case ISAChange(_) => 15
    case Sum(_) => CHECKSUM
    case PageMap(_, _) => 22
    case Icache(_, _) => 23
    case IcacheVariable(_, _) => 24
    case CacheOnly(_, _, _, _) => 26
    case Output(_, _) => 27
    case Syscall(_, _) => 28
    case Join(_) => 30
    case Magic(_, _, _) => 33
    case Emu(_, _) => 35
    case End => END
    case Unknown(kind, _) => kind
  }

  /** A byte string preceded by its 16-bit length. */
  function Counted(s: seq<byte>): (t: seq<byte>)
    requires |s| < 0x1_0000
    ensures |t| == 2 + |s|
  {
    LE16(|s|) + s
  }

  /** Everything after the eight header bytes. */
  function Body(m: Msg): seq<byte>
    requires WellFormed(m) && !m.Short? && !m.Ext?
  {
    match m
    case Sum(value) => LE32(value)
    case Icache(base, bytes) => LE64(base) + bytes
    case IcacheVariable(base, bytes) => LE64(base) + bytes
    case PageMap(vp, pp) => LE64(vp) + LE64(pp)
    case InstructionCount(icount) => LE32(icount)
    case CacheOnly(count, typ, eip, address) => [count, typ] + LE64(eip) + LE64(address)
    case Output(fd, data) => [fd] + data
    case Syscall(number, data) => LE16(number) + data
    case Join(thread) => LE32(thread)
    case Magic(a, b, c) => LE64(a) + LE64(b) + LE64(c)
    case Emu(emuType, request) => LE16(emuType) + request
    case RoutineChange(event, eip, esp, callEip) => [event] + LE64(eip) + LE64(esp) + LE64(callEip)
    case RoutineAnnounce(eip, name, imgname, offset, line, column, filename) =>
      LE64(eip) + (Counted(name) + (Counted(imgname) +
        (LE64(offset) + (LE32(line) + (LE32(column) + Counted(filename))))))
    case ISAChange(isa) => LE32(isa)
    case Unknown(_, body) => body
    case _ => []
  }

  /** The header of an `Other` record: zero, type, padding, size. */
  function Header(kind: byte, pad: seq<byte>, size: u32): (s: seq<byte>)
    requires |pad| == 2
    ensures |s| == 8 && s[0] == 0 && s[1] == kind && s[4..8] == LE32(size)
  {
    [0, kind] + pad + LE32(size)
  }

  /** The bit fields of a short instruction record. */
  function ShortByte(size: int, n: int, isBranch: bool, taken: bool): byte
    requires 0 <= size <= 15 && 0 <= n <= MAX_ADDRESSES
  {
    size + 16 * n + 64 * Bit(isBranch) + 128 * Bit(taken)
  }

  /** The second byte of an extended instruction record. */
  function ExtByte(n: int, isBranch: bool, taken: bool, isPredicate: bool, executed: bool): byte
    requires 0 <= n <= MAX_ADDRESSES
  {
    n + 4 * Bit(isBranch) + 8 * Bit(taken) + 16 * Bit(isPredicate) + 32 * Bit(executed)
  }

  /** An instruction record that passes the writer's assertions: the size may be 0. */
  predicate Accepted(m: Msg) {
    (m.Short? || m.Ext?) && 0 <= m.size <= 15 && |m.addresses| <= MAX_ADDRESSES
  }

  function FixedPart(m: Msg, pad: seq<byte>): (s: seq<byte>)
    requires Accepted(m) && |pad| == PadSize(m)
    ensures |s| == if m.Short? then 8 else 16
  {
    match m
    case Short(size, isBranch, taken, addresses) =>
      [ShortByte(size, |addresses|, isBranch, taken)] + pad
    case Ext(size, isBranch, taken, isPredicate, executed, addr, addresses) =>
      [16 * size, ExtByte(|addresses|, isBranch, taken, isPredicate, executed)]
      + pad + LE64(addr)
  }

  /** The bytes of a record, with `pad` in its padding. */
  function Encode(m: Msg, pad: seq<byte>): (s: seq<byte>)
    requires WellFormed(m) && |pad| == PadSize(m)
    ensures |s| >= 8
  {
    if m.Short? || m.Ext? then FixedPart(m, pad) + Addresses(m.addresses)
    else Header(Kind(m), pad, |Body(m)|) + Body(m)
  }

  // ----- decoding

  /** A decoded record and its length, or Bad when an assertion of the reader fails, the stream ends
      inside the record, or the record has more data addresses than an instruction can hold. */
  datatype Decoded = Got(msg: Msg, length: nat) | Bad

  function ReadAddresses(s: seq<byte>, n: nat): (a: seq<u64>)
    requires |s| >= 8 * n
    ensures |a| == n
  {
    if n == 0 then [] else [U64(s[..8])] + ReadAddresses(s[8..], n - 1)
  }

  function Decode(s: seq<byte>): Decoded {
    if |s| < 8 then Bad
    else if s[0] == 0 then
      AfterHeader(DecodeBody(s[1], U32(s[4..8]), s[8..]))
    else if s[0] % 16 != 0 then DecodeShort(s)
    else DecodeExt(s)
  }

  function AfterHeader(d: Decoded): Decoded {
    match d
    case Got(m, n) => Got(m, 8 + n)
    case Bad => Bad
  }

  function DecodeShort(s: seq<byte>): Decoded
    requires |s| >= 8
  {
    var n := s[0] / 16 % 4;
    if n > MAX_ADDRESSES || |s| < 8 + 8 * n then Bad
    else Got(Short(s[0] % 16, s[0] / 64 % 2 == 1, s[0] / 128 == 1, ReadAddresses(s[8..], n)), 8 + 8 * n)
  }

  function DecodeExt(s: seq<byte>): Decoded
    requires |s| >= 8
  {
    var n := s[1] % 4;
    if n > MAX_ADDRESSES || |s| < 16 + 8 * n then Bad
    else
      Got(Ext(s[0] / 16, s[1] / 4 % 2 == 1, s[1] / 8 % 2 == 1, s[1] / 16 % 2 == 1, s[1] / 32 % 2 == 1, U64(s[8..16]),
              ReadAddresses(s[16..], n)), 16 + 8 * n)
  }

  /** The fields behind the header, read in the reader's order; `length` counts only these. */
  function DecodeBody(kind: byte, size: u32, t: seq<byte>): Decoded {
    if kind == 14 then DecodeAnnounce(t)
    else if |t| < size then Bad
    else if kind == 1 then if size == 0 then Got(Sync, 0) else Bad
    else if kind == 3 then if size == 0 then Got(NewThread, 0) else Bad
    else if kind == 7 then if size == 0 then Got(Fork, 0) else Bad
    else if kind == 10 then if size == 4 then Got(InstructionCount(U32(t[..4])), 4) else Bad
    else if kind == 13 then
      if size == 25 then Got(RoutineChange(t[0], U64(t[1..9]), U64(t[9..17]), U64(t[17..25])), 25) else Bad
    else if kind == 15 then if size == 4 then Got(ISAChange(U32(t[..4])), 4) else Bad
    else if kind == CHECKSUM then if size == 4 then Got(Sum(U32(t[..4])), 4) else Bad
    else if kind == 22 then if size == 16 then Got(PageMap(U64(t[..8]), U64(t[8..16])), 16) else Bad
    else if kind == 23 then if size == 8 + PAGE then Got(Icache(U64(t[..8]), t[8..size]), size) else Bad
    else if kind == 24 then if size >= 8 then Got(IcacheVariable(U64(t[..8]), t[8..size]), size) else Bad
    else if kind == 26 then
      if size == 18 then Got(CacheOnly(t[0], t[1], U64(t[2..10]), U64(t[10..18])), 18) else Bad
    else if kind == 27 then if size > 1 then Got(Output(t[0], t[1..size]), size) else Bad
    else if kind == 28 then if size > 2 then Got(Syscall(U16(t[..2]), t[2..size]), size) else Bad
    else if kind == 30 then if size == 4 then Got(Join(U32(t[..4])), 4) else Bad
    else if kind == 33 then
      if size == 24 then Got(Magic(U64(t[..8]), U64(t[8..16]), U64(t[16..24])), 24) else Bad
    else if kind == 35 then
      if 2 <= size <= 2 + EMU_REQUEST_SIZE then Got(Emu(U16(t[..2]), t[2..size]), size) else Bad
    else if kind == END then if size == 0 then Got(End, 0) else Bad
    else Got(Unknown(kind, t[..size]), size)
  }

  /** A length-prefixed string at the front of `t`, if it is all there. */
  datatype Prefix = Prefix(text: seq<byte>, length: nat) | Cut

  function ReadCounted(t: seq<byte>): (p: Prefix)
    ensures p.Prefix? ==> p.length <= |t| && |p.text| < 0x1_0000 && p.length == 2 + |p.text|
  {
    if |t| < 2 then Cut
    else
      var n := U16(t[..2]);
      if |t| < 2 + n then Cut else Prefix(t[2..2 + n], 2 + n)
  }

  /** The routine announcement is read by its own length fields; the record size is never looked at. */
  function DecodeAnnounce(t: seq<byte>): Decoded {
    if |t| < 8 then Bad
    else
      var t1 := t[8..];
      var name := ReadCounted(t1);
      if name.Cut? then Bad
      else
        var t2 := t1[name.length..];
        var imgname := ReadCounted(t2);
        if imgname.Cut? || |t2| - imgname.length < 16 then Bad
        else
          var t3 := t2[imgname.length..];
          var filename := ReadCounted(t3[16..]);
          if filename.Cut? then Bad
          else
            Got(RoutineAnnounce(U64(t[..8]), name.text, imgname.text, U64(t3[..8]), U32(t3[8..12]), U32(t3[12..16]),
                                filename.text),
                24 + name.length + imgname.length + filename.length)
  }

  // ----- every record decodes to itself, whatever its padding and whatever follows it

  lemma {:induction false} AddressesRoundTrip(a: seq<u64>, rest: seq<byte>)
    ensures ReadAddresses(Addresses(a) + rest, |a|) == a
  {
    if a != [] {
      var s := Addresses(a) + rest;
      LE64RoundTrip(a[0]);
      assert s[..8] == LE64(a[0]);
      assert s[8..] == Addresses(a[1..]) + rest;
      AddressesRoundTrip(a[1..], rest);
    }
  }

  lemma CountedRoundTrip(x: seq<byte>, rest: seq<byte>)
    requires |x| < 0x1_0000
    ensures ReadCounted(Counted(x) + rest) == Prefix(x, 2 + |x|)
    ensures (Counted(x) + rest)[2 + |x|..] == rest
  {
    var t := Counted(x) + rest;
    LE16RoundTrip(|x|);
    assert t[..2] == LE16(|x|);
    assert t[2..2 + |x|] == x;
  }

  /** The three numbers between the image name and the file name of an announcement. */
  lemma MiddleRoundTrip(offset: u64, line: u32, column: u32, tail: seq<byte>)
    ensures var t := LE64(offset) + (LE32(line) + (LE32(column) + tail));
            |t| == 16 + |tail| && U64(t[..8]) == offset && U32(t[8..12]) == line && U32(t[12..16]) == column
            && t[16..] == tail
  {
    var t := LE64(offset) + (LE32(line) + (LE32(column) + tail));
    assert t[..8] == LE64(offset) && t[8..12] == LE32(line) && t[12..16] == LE32(column) && t[16..] == tail;
    LE64RoundTrip(offset);
    LE32RoundTrip(line);
    LE32RoundTrip(column);
  }

  lemma AnnounceAssociates(m: Msg, rest: seq<byte>)
    requires m.RoutineAnnounce? && WellFormed(m)
    ensures Body(m) + rest ==
            LE64(m.eip) + (Counted(m.name) + (Counted(m.imgname) +
              (LE64(m.offset) + (LE32(m.line) + (LE32(m.column) + (Counted(m.filename) + rest))))))
  {
  }

  lemma AnnounceLength(m: Msg)
    requires m.RoutineAnnounce? && WellFormed(m)
    ensures |Body(m)| == 30 + |m.name| + |m.imgname| + |m.filename|
    ensures |m.name| < 0x1_0000 && |m.imgname| < 0x1_0000 && |m.filename| < 0x1_0000
  {
  }

  lemma AnnounceRoundTrip(m: Msg, rest: seq<byte>)
    requires m.RoutineAnnounce? && WellFormed(m)
    ensures DecodeAnnounce(Body(m) + rest) == Got(m, |Body(m)|)
  {
    hide LE, FromLE, Counted, ReadCounted;
    var tail := Counted(m.filename) + rest;
    var t3 := LE64(m.offset) + (LE32(m.line) + (LE32(m.column) + tail));
    var t2 := Counted(m.imgname) + t3;
    var t1 := Counted(m.name) + t2;
    AnnounceAssociates(m, rest);
    var t := Body(m) + rest;
    assert t[..8] == LE64(m.eip) && t[8..] == t1;
    AnnounceLength(m);
    hide Body, WellFormed;
    LE64RoundTrip(m.eip);
    CountedRoundTrip(m.name, t2);
    CountedRoundTrip(m.imgname, t3);
    MiddleRoundTrip(m.offset, m.line, m.column, tail);
    CountedRoundTrip(m.filename, rest);
  }

  /** Reading a 64-bit number that stands after `before`. */
  lemma NumberAt(before: seq<byte>, n: u64, after: seq<byte>)
    ensures var t := before + LE64(n) + after;
            |t| == |before| + 8 + |after| && U64(t[|before|..|before| + 8]) == n
  {
    var t := before + LE64(n) + after;
    assert t[|before|..|before| + 8] == LE64(n);
    LE64RoundTrip(n);
  }

  lemma PageMapRoundTrip(vp: u64, pp: u64, rest: seq<byte>)
    ensures DecodeBody(22, 16, LE64(vp) + LE64(pp) + rest) == Got(PageMap(vp, pp), 16)
  {
    var t := LE64(vp) + LE64(pp) + rest;
    NumberAt([], vp, LE64(pp) + rest);
    assert t == [] + LE64(vp) + (LE64(pp) + rest);
    NumberAt(LE64(vp), pp, rest);
    assert t[..8] == t[0..8];
  }

  lemma CacheOnlyRoundTrip(count: byte, typ: byte, eip: u64, address: u64, rest: seq<byte>)
    ensures DecodeBody(26, 18, [count, typ] + LE64(eip) + LE64(address) + rest) ==
      Got(CacheOnly(count, typ, eip, address), 18)
  {
    var t := [count, typ] + LE64(eip) + LE64(address) + rest;
    NumberAt([count, typ], eip, LE64(address) + rest);
    assert t == [count, typ] + LE64(eip) + (LE64(address) + rest);
    NumberAt([count, typ] + LE64(eip), address, rest);
  }

  lemma MagicRoundTrip(a: u64, b: u64, c: u64, rest: seq<byte>)
    ensures DecodeBody(33, 24, LE64(a) + LE64(b) + LE64(c) + rest) == Got(Magic(a, b, c), 24)
  {
    hide LE64, U64;
    var t := LE64(a) + LE64(b) + LE64(c) + rest;
    ThreeNumbersAt([], a, b, c, rest);
    assert t == [] + LE64(a) + LE64(b) + LE64(c) + rest && t[..8] == t[0..8];
  }

  lemma ThreeNumbersAt(before: seq<byte>, a: u64, b: u64, c: u64, after: seq<byte>)
    ensures var t, n := before + LE64(a) + LE64(b) + LE64(c) + after, |before|;
            && |t| == n + 24 + |after|
            && U64(t[n..n + 8]) == a && U64(t[n + 8..n + 16]) == b && U64(t[n + 16..n + 24]) == c
  {
    hide LE64, U64;
    var t := before + LE64(a) + LE64(b) + LE64(c) + after;
    NumberAt(before, a, LE64(b) + LE64(c) + after);
    assert t == before + LE64(a) + (LE64(b) + LE64(c) + after);
    NumberAt(before + LE64(a), b, LE64(c) + after);
    assert t == before + LE64(a) + LE64(b) + (LE64(c) + after);
    NumberAt(before + LE64(a) + LE64(b), c, after);
  }

  lemma RoutineChangeRoundTrip(event: byte, a: u64, b: u64, c: u64, rest: seq<byte>)
    ensures DecodeBody(13, 25, [event] + LE64(a) + LE64(b) + LE64(c) + rest) == Got(RoutineChange(event, a, b, c), 25)
  {
    hide LE64, U64;
    ThreeNumbersAt([event], a, b, c, rest);
  }

  lemma BodyRoundTrip(m: Msg, rest: seq<byte>)
    requires WellFormed(m) && !m.Short? && !m.Ext?
    requires |Body(m)| < TWO32
    ensures DecodeBody(Kind(m), |Body(m)|, Body(m) + rest) == Got(m, |Body(m)|)
  {
    var t := Body(m) + rest;
    match m
    case RoutineAnnounce(_, _, _, _, _, _, _) => AnnounceRoundTrip(m, rest);
    case PageMap(vp, pp) => PageMapRoundTrip(vp, pp, rest);
    case CacheOnly(count, typ, eip, address) => CacheOnlyRoundTrip(count, typ, eip, address, rest);
    case Magic(a, b, c) => MagicRoundTrip(a, b, c, rest);
    case RoutineChange(event, eip, esp, callEip) => RoutineChangeRoundTrip(event, eip, esp, callEip, rest);
    case Sum(v) => assert t[..4] == LE32(v); LE32RoundTrip(v);
    case InstructionCount(v) => assert t[..4] == LE32(v); LE32RoundTrip(v);
    case Join(v) => assert t[..4] == LE32(v); LE32RoundTrip(v);
    case ISAChange(v) => assert t[..4] == LE32(v); LE32RoundTrip(v);
    case Icache(base, bytes) => assert t[..8] == LE64(base) && t[8..8 + |bytes|] == bytes; LE64RoundTrip(base);
    case IcacheVariable(base, bytes) => assert t[..8] == LE64(base) && t[8..8 + |bytes|] == bytes; LE64RoundTrip(base);
    case Output(fd, data) => assert t[1..1 + |data|] == data;
    case Syscall(number, data) => assert t[..2] == LE16(number) && t[2..2 + |data|] == data; LE16RoundTrip(number);
    case Emu(typ, request) => assert t[..2] == LE16(typ) && t[2..2 + |request|] == request; LE16RoundTrip(typ);
    case Unknown(_, body) => assert t[..|body|] == body;
    case _ =>
  }

  lemma ShortBits(size: int, n: int, x: bool, y: bool)
    requires 0 <= size <= 15 && 0 <= n <= MAX_ADDRESSES
    ensures var b := ShortByte(size, n, x, y);
            b % 16 == size && b / 16 % 4 == n && (b / 64 % 2 == 1 <==> x) && (b / 128 == 1 <==> y)
  {
  }

  lemma ExtBits(n: int, x: bool, y: bool, z: bool, w: bool)
    requires 0 <= n <= MAX_ADDRESSES
    ensures var b := ExtByte(n, x, y, z, w);
            b % 4 == n && (b / 4 % 2 == 1 <==> x) && (b / 8 % 2 == 1 <==> y) && (b / 16 % 2 == 1 <==> z)
            && (b / 32 % 2 == 1 <==> w)
  {
  }

  /** Decoding a short record, given the bit fields of its first byte. */
  lemma ShortFields(b: byte, m: Msg, tail: seq<byte>, rest: seq<byte>)
    requires m.Short? && WellFormed(m) && |tail| == 7
    requires b % 16 == m.size && b / 16 % 4 == |m.addresses|
    requires (b / 64 % 2 == 1 <==> m.isBranch) && (b / 128 == 1 <==> m.taken)
    ensures DecodeShort([b] + tail + Addresses(m.addresses) + rest) == Got(m, 8 + 8 * |m.addresses|)
  {
    var s := [b] + tail + Addresses(m.addresses) + rest;
    assert s[0] == b;
    assert s[8..] == Addresses(m.addresses) + rest;
    AddressesRoundTrip(m.addresses, rest);
  }

  lemma ShortRoundTrip(m: Msg, pad: seq<byte>, rest: seq<byte>)
    requires m.Short? && WellFormed(m) && |pad| == PadSize(m)
    ensures Decode(Encode(m, pad) + rest) == Got(m, |Encode(m, pad)|)
  {
    var b := ShortByte(m.size, |m.addresses|, m.isBranch, m.taken);
    ShortBits(m.size, |m.addresses|, m.isBranch, m.taken);
    ShortFields(b, m, pad, rest);
    assert (Encode(m, pad) + rest)[0] == b;
  }

  /** Decoding an extended record, given its first two bytes. */
  lemma ExtFields(b: byte, m: Msg, pad: seq<byte>, rest: seq<byte>)
    requires m.Ext? && WellFormed(m) && |pad| == 6
    requires b % 4 == |m.addresses| && (b / 4 % 2 == 1 <==> m.isBranch) && (b / 8 % 2 == 1 <==> m.taken)
    requires (b / 16 % 2 == 1 <==> m.isPredicate) && (b / 32 % 2 == 1 <==> m.executed)
    ensures DecodeExt([16 * m.size, b] + pad + LE64(m.addr) + Addresses(m.addresses) + rest) ==
      Got(m, 16 + 8 * |m.addresses|)
  {
    var s := [16 * m.size, b] + pad + LE64(m.addr) + Addresses(m.addresses) + rest;
    assert s[0] == 16 * m.size && s[1] == b;
    assert s[8..16] == LE64(m.addr);
    LE64RoundTrip(m.addr);
    assert s[16..] == Addresses(m.addresses) + rest;
    AddressesRoundTrip(m.addresses, rest);
  }

  lemma ExtRoundTrip(m: Msg, pad: seq<byte>, rest: seq<byte>)
    requires m.Ext? && WellFormed(m) && |pad| == PadSize(m)
    ensures Decode(Encode(m, pad) + rest) == Got(m, |Encode(m, pad)|)
  {
    ExtBits(|m.addresses|, m.isBranch, m.taken, m.isPredicate, m.executed);
    ExtFields(ExtByte(|m.addresses|, m.isBranch, m.taken, m.isPredicate, m.executed), m, pad, rest);
    assert (Encode(m, pad) + rest)[0] == 16 * m.size;
  }

  lemma BodyBound(m: Msg)
    requires WellFormed(m) && !m.Short? && !m.Ext?
    ensures |Body(m)| < TWO32
  {
  }

  lemma OtherFields(kind: byte, pad: seq<byte>, body: seq<byte>, rest: seq<byte>)
    requires |pad| == 2 && |body| < TWO32
    ensures Decode(Header(kind, pad, |body|) + body + rest) == AfterHeader(DecodeBody(kind, |body|, body + rest))
  {
    var s := Header(kind, pad, |body|) + body + rest;
    assert s[4..8] == LE32(|body|) && s[8..] == body + rest && s[1] == kind;
    LE32RoundTrip(|body|);
  }

  /** Decoding inverts encoding at the front of any stream, for every padding. */
  lemma RoundTrip(m: Msg, pad: seq<byte>, rest: seq<byte>)
    requires WellFormed(m) && |pad| == PadSize(m)
    ensures Decode(Encode(m, pad) + rest) == Got(m, |Encode(m, pad)|)
  {
    if m.Short? {
      ShortRoundTrip(m, pad, rest);
    } else if m.Ext? {
      ExtRoundTrip(m, pad, rest);
    } else {
      BodyBound(m);
      BodyRoundTrip(m, rest);
      OtherFields(Kind(m), pad, Body(m), rest);
    }
  }

  /** The writer accepts an instruction of size 0, but its record cannot be read back, in either form: the first byte
      is what tells the forms apart. The record is read back as itself exactly when the size is not 0. */
  lemma InstructionNeedsSize(m: Msg, pad: seq<byte>, rest: seq<byte>)
    requires Accepted(m) && |pad| == PadSize(m)
    ensures var record := FixedPart(m, pad) + Addresses(m.addresses);
            Decode(record + rest) == Got(m, |record|) <==> m.size != 0
  {
    hide DecodeBody, ReadAddresses, Addresses, LE;
    var s := FixedPart(m, pad) + Addresses(m.addresses) + rest;
    if m.size != 0 {
      RoundTrip(m, pad, rest);
    } else {
      assert s[0] % 16 == 0 && (m.Ext? ==> s[0] == 0) by {
        if m.Short? {
          ShortBits(0, |m.addresses|, m.isBranch, m.taken);
        }
      }
      NotInstruction(s[1], U32(s[4..8]), s[8..]);
    }
  }

  lemma NotInstruction(kind: byte, size: u32, t: seq<byte>)
    ensures var d := DecodeBody(kind, size, t);
            d.Got? ==> !d.msg.Short? && !d.msg.Ext? && (kind != CHECKSUM ==> !d.msg.Sum?)
  {
  }

  // ----- decoding looks at no byte behind the record

  lemma SliceOfPrefix(s: seq<byte>, t: seq<byte>, n: nat, a: nat, b: nat)
    requires n <= |s| && n <= |t| && s[..n] == t[..n] && a <= b <= n
    ensures s[a..b] == t[a..b]
  {
    assert s[a..b] == s[..n][a..b] && t[a..b] == t[..n][a..b];
  }

  lemma {:induction false} AddressesLocal(s: seq<byte>, t: seq<byte>, n: nat)
    requires |s| >= 8 * n && |t| >= 8 * n && s[..8 * n] == t[..8 * n]
    ensures ReadAddresses(s, n) == ReadAddresses(t, n)
  {
    if n > 0 {
      SliceOfPrefix(s, t, 8 * n, 0, 8);
      SliceOfPrefix(s, t, 8 * n, 8, 8 * n);
      assert s[8..][..8 * (n - 1)] == s[8..8 * n] && t[8..][..8 * (n - 1)] == t[8..8 * n];
      AddressesLocal(s[8..], t[8..], n - 1);
    }
  }

  lemma CountedLocal(s: seq<byte>, t: seq<byte>)
    requires ReadCounted(s).Prefix? && ReadCounted(s).length <= |t|
    requires s[..ReadCounted(s).length] == t[..ReadCounted(s).length]
    ensures ReadCounted(t) == ReadCounted(s)
  {
    var n := ReadCounted(s).length;
    SliceOfPrefix(s, t, n, 0, 2);
    SliceOfPrefix(s, t, n, 2, n);
    assert s[..2] == s[0..2] && t[..2] == t[0..2];
  }

  /** Dropping a common front leaves a common front. */
  lemma DropPrefix(s: seq<byte>, t: seq<byte>, n: nat, k: nat)
    requires k <= n <= |s| && n <= |t| && s[..n] == t[..n]
    ensures s[k..][..n - k] == t[k..][..n - k]
  {
    SliceOfPrefix(s, t, n, k, n);
    assert s[k..][..n - k] == s[k..n] && t[k..][..n - k] == t[k..n];
  }

  lemma AnnounceLocal(s: seq<byte>, t: seq<byte>, n: nat)
    requires DecodeAnnounce(s).Got? && n == DecodeAnnounce(s).length
    requires n <= |s| && n <= |t| && s[..n] == t[..n]
    ensures DecodeAnnounce(t) == DecodeAnnounce(s)
  {
    hide ReadCounted, FromLE;
    SliceOfPrefix(s, t, n, 0, 8);
    assert s[..8] == s[0..8] && t[..8] == t[0..8];
    DropPrefix(s, t, n, 8);
    var s1, t1, n1 := s[8..], t[8..], n - 8;
    var a := ReadCounted(s1).length;
    assert s1[..a] == s1[..n1][..a] && t1[..a] == t1[..n1][..a];
    CountedLocal(s1, t1);
    DropPrefix(s1, t1, n1, a);
    AnnounceTailLocal(s1[a..], t1[a..], n1 - a);
  }

  lemma AnnounceTailLocal(s: seq<byte>, t: seq<byte>, n: nat)
    requires n <= |s| && n <= |t| && s[..n] == t[..n]
    requires ReadCounted(s).Prefix? && ReadCounted(s).length + 16 <= n
    requires ReadCounted(s[ReadCounted(s).length + 16..]).Prefix?
    requires n == ReadCounted(s).length + 16 + ReadCounted(s[ReadCounted(s).length + 16..]).length
    ensures ReadCounted(t) == ReadCounted(s)
    ensures var b := ReadCounted(s).length;
            && s[b..][..8] == t[b..][..8] && s[b..][8..12] == t[b..][8..12] && s[b..][12..16] == t[b..][12..16]
            && ReadCounted(s[b..][16..]) == ReadCounted(t[b..][16..])
  {
    var b := ReadCounted(s).length;
    assert s[..b] == s[..n][..b] && t[..b] == t[..n][..b];
    CountedLocal(s, t);
    DropPrefix(s, t, n, b);
    SliceOfPrefix(s[b..], t[b..], n - b, 0, 8);
    SliceOfPrefix(s[b..], t[b..], n - b, 8, 12);
    SliceOfPrefix(s[b..], t[b..], n - b, 12, 16);
    DropPrefix(s, t, n, b + 16);
    assert s[b..][16..] == s[b + 16..] && t[b..][16..] == t[b + 16..];
    CountedLocal(s[b + 16..], t[b + 16..]);
  }

  lemma BodyLocal(kind: byte, size: u32, s: seq<byte>, t: seq<byte>, n: nat)
    requires DecodeBody(kind, size, s).Got? && n == DecodeBody(kind, size, s).length
    requires n <= |s| && n <= |t| && s[..n] == t[..n]
    ensures DecodeBody(kind, size, t) == DecodeBody(kind, size, s)
  {
    hide FromLE, DecodeAnnounce;
    if kind == 14 {
      AnnounceLocal(s, t, n);
    } else {
      assert n == size;
      forall a: nat, b: nat | a <= b <= n
        ensures s[a..b] == t[a..b]
      {
        SliceOfPrefix(s, t, n, a, b);
      }
      assert forall b: nat :: b <= n ==> s[..b] == s[0..b] && t[..b] == t[0..b];
      assert forall i: nat :: i < n ==> s[i] == s[..n][i] && t[i] == t[..n][i];
    }
  }

  /** A record is recognised from its own bytes alone. */
  lemma DecodeLocal(s: seq<byte>, t: seq<byte>)
    requires Decode(s).Got? && Decode(s).length <= |s| && Decode(s).length <= |t|
    requires s[..Decode(s).length] == t[..Decode(s).length]
    ensures Decode(t) == Decode(s)
  {
    hide FromLE, DecodeBody, ReadAddresses;
    var n := Decode(s).length;
    assert forall i: nat :: i < n ==> s[i] == s[..n][i] && t[i] == t[..n][i];
    assert s[0] == t[0];
    if s[0] == 0 {
      SliceOfPrefix(s, t, n, 4, 8);
      DropPrefix(s, t, n, 8);
      BodyLocal(s[1], U32(s[4..8]), s[8..], t[8..], n - 8);
    } else if s[0] % 16 != 0 {
      DropPrefix(s, t, n, 8);
      AddressesLocal(s[8..], t[8..], s[0] / 16 % 4);
    } else {
      SliceOfPrefix(s, t, n, 8, 16);
      DropPrefix(s, t, n, 16);
      AddressesLocal(s[16..], t[16..], s[1] % 4);
    }
  }
}
