/** What a SIFT writer emits for each call, as a function of its state, and the relation between a
    writer and a reader that has seen everything it emitted. */
module SiftRecord {
  import opened Bytes
  import opened SiftFormat
  import opened SiftImage
  import opened SiftReplay

  const SYS_FUTEX: u16 := 202

  /** The traced program and the writer's options: its code bytes, the size of the instruction at an
      address, the physical frame of a virtual page (0: not mapped), whether code is sent per instruction
      instead of per page, and whether page mappings are sent. */
  datatype Program = Program(code: int -> byte, sizeAt: int -> int, frame: int -> u64, perInstruction: bool,
                             sendMapping: bool)

  /** The arguments of `Writer::Instruction`. */
  datatype Inst = Inst(addr: u64, size: int, addresses: seq<u64>, isBranch: bool, taken: bool, isPredicate: bool,
                       executed: bool)

  /** A call on the writer; `Record(m)` is the call that emits the record `m`. */
  datatype Call = Instruction(inst: Inst) | Record(msg: Msg)

  /** The running address and the sets of code addresses and pages already sent. */
  datatype Writer = Writer(last: u64, icache: set<u64>, va2pa: set<u64>)

  const START: Writer := Writer(0, {}, {})

  predicate ValidInst(p: Program, i: Inst) {
    && 1 <= i.size <= 15
    && |i.addresses| <= MAX_ADDRESSES
    && i.size == p.sizeAt(i.addr)
    && i.addr + i.size <= if p.perInstruction then TWO64 else TWO64 - PAGE
  }

  /** The records a client can ask for directly. */
  predicate Emittable(m: Msg) {
    && WellFormed(m)
    && (m.InstructionCount? || m.CacheOnly? || m.Output? || m.Syscall? || m.NewThread? || m.Join? || m.Sync? ||
        m.Fork? || m.Magic? || m.Emu? || m.RoutineChange? || m.RoutineAnnounce? || m.ISAChange?)
    && (m.Syscall? && m.number == SYS_FUTEX ==> |m.data| >= 8)
  }

  predicate ValidCall(p: Program, c: Call) {
    match c
    case Instruction(i) => ValidInst(p, i)
    case Record(m) => Emittable(m)
  }

  // ----- code

  /** Page records for the pages from `base` to `limit` that were not sent before. */
  function PageMsgs(p: Program, icache: set<u64>, base: int, limit: int): seq<Msg>
    requires 0 <= base && limit < TWO64
    decreases limit - base
  {
    if base > limit then []
    else if base in icache then PageMsgs(p, icache, base + PAGE, limit)
    else [Icache(base, CodeBytes(p.code, base, PAGE))] + PageMsgs(p, icache + {base}, base + PAGE, limit)
  }

  function PagesSent(icache: set<u64>, base: int, limit: int): set<u64>
    requires 0 <= base && limit < TWO64
    decreases limit - base
  {
    if base > limit then icache else PagesSent(icache + {base}, base + PAGE, limit)
  }

  function LastPage(i: Inst): u64
    requires 1 <= i.size && i.addr + i.size <= TWO64
  {
    PageOf(i.addr + i.size - 1)
  }

  lemma PageRange(p: Program, i: Inst)
    requires ValidInst(p, i) && !p.perInstruction
    ensures PageOf(i.addr) % PAGE == 0 && LastPage(i) + PAGE <= TWO64
  {
  }

  function CodeMsgs(p: Program, icache: set<u64>, i: Inst): seq<Msg>
    requires ValidInst(p, i)
  {
    if p.perInstruction then
      if i.addr in icache then [] else [IcacheVariable(i.addr, CodeBytes(p.code, i.addr, i.size))]
    else PageMsgs(p, icache, PageOf(i.addr), LastPage(i))
  }

  function CodeSent(p: Program, icache: set<u64>, i: Inst): set<u64>
    requires ValidInst(p, i)
  {
    if p.perInstruction then icache + {i.addr} else PagesSent(icache, PageOf(i.addr), LastPage(i))
  }

  // ----- page mappings

  predicate NeedsMapping(p: Program, va2pa: set<u64>, va: u64) {
    p.sendMapping && va / PAGE !in va2pa && p.frame(va / PAGE) != 0
  }

  function MapMsgs(p: Program, va2pa: set<u64>, vas: seq<u64>): seq<Msg>
    decreases |vas|
  {
    if vas == [] then []
    else if NeedsMapping(p, va2pa, vas[0]) then
      [PageMap(vas[0] / PAGE, p.frame(vas[0] / PAGE))] + MapMsgs(p, va2pa + {vas[0] / PAGE}, vas[1..])
    else MapMsgs(p, va2pa, vas[1..])
  }

  function MapSent(p: Program, va2pa: set<u64>, vas: seq<u64>): set<u64>
    decreases |vas|
  {
    if vas == [] then va2pa
    else MapSent(p, if NeedsMapping(p, va2pa, vas[0]) then va2pa + {vas[0] / PAGE} else va2pa, vas[1..])
  }

  /** The virtual addresses whose mapping a call tries to send. */
  function Touched(c: Call): seq<u64> {
    match c
    case Instruction(i) => [i.addr] + i.addresses
    case Record(CacheOnly(_, _, eip, address)) => [eip, address]
    case Record(Syscall(number, data)) => if number == SYS_FUTEX && |data| >= 8 then [U64(data[..8])] else []
    case _ => []
  }

  // ----- calls

  /** The short form serves an unpredicated instruction at the running address. */
  predicate FallsThrough(w: Writer, i: Inst) {
    i.addr == w.last && !i.isPredicate
  }

  function InstMsg(w: Writer, i: Inst): Msg {
    if FallsThrough(w, i) then Short(i.size, i.isBranch, i.taken, i.addresses)
    else Ext(i.size, i.isBranch, i.taken, i.isPredicate, i.executed, i.addr, i.addresses)
  }

  function CallMsgs(p: Program, w: Writer, c: Call): seq<Msg>
    requires ValidCall(p, c)
  {
    match c
    case Instruction(i) => CodeMsgs(p, w.icache, i) + MapMsgs(p, w.va2pa, Touched(c)) + [InstMsg(w, i)]
    case Record(m) => MapMsgs(p, w.va2pa, Touched(c)) + [m]
  }

  function CallNext(p: Program, w: Writer, c: Call): Writer
    requires ValidCall(p, c)
  {
    var va2pa := MapSent(p, w.va2pa, Touched(c));
    match c
    case Instruction(i) => Writer(Add64(i.addr, i.size), CodeSent(p, w.icache, i), va2pa)
    case Record(_) => w.(va2pa := va2pa)
  }

  ghost predicate ValidCalls(p: Program, cs: seq<Call>) {
    forall i :: 0 <= i < |cs| ==> ValidCall(p, cs[i])
  }

  function TraceMsgs(p: Program, w: Writer, cs: seq<Call>): seq<Msg>
    requires ValidCalls(p, cs)
    decreases |cs|
  {
    if cs == [] then [] else CallMsgs(p, w, cs[0]) + TraceMsgs(p, CallNext(p, w, cs[0]), cs[1..])
  }

  function TraceNext(p: Program, w: Writer, cs: seq<Call>): Writer
    requires ValidCalls(p, cs)
    decreases |cs|
  {
    if cs == [] then w else TraceNext(p, CallNext(p, w, cs[0]), cs[1..])
  }

  // ----- what the calls should look like to the reader's client

  function ProgramStatic(p: Program, a: u64): Static
    requires p.sizeAt(a) >= 0
  {
    Static(a, p.sizeAt(a), CodeBytes(p.code, a, p.sizeAt(a)))
  }

  /** A client sees each call with its own arguments. Only `executed` of an instruction that falls through
      unpredicated is not transmitted: such an instruction always reads as executed. */
  function Seen(p: Program, last: u64, isa: u32, c: Call): seq<Event>
    requires ValidCall(p, c)
  {
    match c
    case Instruction(i) =>
      [Executed(Dynamic(ProgramStatic(p, i.addr), i.addresses, i.isBranch, i.taken, i.isPredicate,
                        i.executed || (i.addr == last && !i.isPredicate), isa))]
    case Record(ISAChange(_)) => []
    case Record(m) => [Called(m)]
  }

  function LastAfter(last: u64, c: Call): u64 {
    match c
    case Instruction(i) => if i.size >= 0 then Add64(i.addr, i.size) else last
    case Record(_) => last
  }

  function IsaAfter(isa: u32, c: Call): u32 {
    match c
    case Record(ISAChange(new_isa)) => new_isa
    case _ => isa
  }

  function TraceSeen(p: Program, last: u64, isa: u32, cs: seq<Call>): seq<Event>
    requires ValidCalls(p, cs)
    decreases |cs|
  {
    if cs == [] then []
    else Seen(p, last, isa, cs[0]) + TraceSeen(p, LastAfter(last, cs[0]), IsaAfter(isa, cs[0]), cs[1..])
  }

  // ----- a reader in step with a writer

  /** How many code bytes behind an address in the writer's set have been sent. */
  function Extent(p: Program, a: u64): int {
    if p.perInstruction then p.sizeAt(a) else PAGE
  }

  ghost predicate CodeInStep(p: Program, icache: set<u64>, image: Image) {
    && Sound(image, p.code)
    && forall a :: a in icache ==> 0 <= Extent(p, a) && a + Extent(p, a) <= TWO64 && Covers(image, a, Extent(p, a))
  }

  ghost predicate MapInStep(p: Program, va2pa: set<u64>, vcache: map<u64, u64>) {
    vcache.Keys == va2pa && forall vp :: vp in va2pa ==> p.frame(vp) != 0 && vcache[vp] == p.frame(vp)
  }

  /** Every cached instruction is the program's instruction at its address. */
  ghost predicate StaticInStep(p: Program, scache: map<u64, Static>) {
    forall a :: a in scache ==> p.sizeAt(a) >= 0 && scache[a] == ProgramStatic(p, a)
  }

  ghost predicate InStep(p: Program, w: Writer, r: Reader) {
    && Consistent(r)
    && r.last == w.last
    && CodeInStep(p, w.icache, r.icache)
    && MapInStep(p, w.va2pa, r.vcache)
    && StaticInStep(p, r.scache)
    && !r.seenEnd
  }
}
