/**
 User-level page faults: the frame page_fault_handler pushes (kern/trap.c:388-406) and
 _pgfault_upcall's way back (lib/pfentry.S:34-93), nested to any depth.
 Memory is bytes, registers are 32-bit words, and stack pointers need not be aligned.
 The exception stack's page is mapped and the page below it is not (inc/memlayout.h:108-114).
 */
module Fault {
  import opened Layout

  type u32 = x: nat | x < 0x1_0000_0000

  // ---- Memory

  /** Bytes by address; an absent address holds 0. */
  type Bytes = map<nat, byte>

  function Byte(m: Bytes, a: nat): byte { if a in m then m[a] else 0 }

  /** Little-endian 32-bit load and store. */
  function Load(m: Bytes, a: nat): u32 {
    Byte(m, a) + 0x100 * Byte(m, a + 1) + 0x1_0000 * Byte(m, a + 2) + 0x100_0000 * Byte(m, a + 3)
  }

  function Store(m: Bytes, a: nat, v: u32): (r: Bytes) {
    m[a := v % 0x100][a + 1 := v / 0x100 % 0x100][a + 2 := v / 0x1_0000 % 0x100][a + 3 := v / 0x100_0000]
  }

  lemma LoadStored(m: Bytes, a: nat, v: u32)
    ensures Load(Store(m, a, v), a) == v
  {
    var x, y := v / 0x100, v / 0x1_0000;
    assert y == x / 0x100 && v / 0x100_0000 == y / 0x100;
    assert v == v % 0x100 + 0x100 * x && x == x % 0x100 + 0x100 * y && y == y % 0x100 + 0x100 * (y / 0x100);
  }

  /** The bytes in [lo, hi) are the same. */
  ghost predicate SameBytes(m: Bytes, m': Bytes, lo: nat, hi: nat) {
    forall a: nat :: lo <= a < hi ==> Byte(m', a) == Byte(m, a)
  }

  /** Consecutive words. */
  function StoreWords(m: Bytes, a: nat, ws: seq<u32>): (r: Bytes)
    decreases |ws|
  {
    if ws == [] then m else StoreWords(Store(m, a, ws[0]), a + 4, ws[1..])
  }

  lemma TailLoads(m: Bytes, a: nat, ws: seq<u32>, k: nat)
    requires 0 < k < |ws| && forall x :: 0 <= x < |ws| - 1 ==> Load(m, a + 4 + 4 * x) == ws[1..][x]
    ensures Load(m, a + 4 * k) == ws[k]
  {
    assert a + 4 * k == a + 4 + 4 * (k - 1) && ws[1..][k - 1] == ws[k];
  }

  lemma {:induction false} StoreWordsLoads(m: Bytes, a: nat, ws: seq<u32>)
    decreases |ws|
    ensures forall k :: 0 <= k < |ws| ==> Load(StoreWords(m, a, ws), a + 4 * k) == ws[k]
    ensures forall b: nat :: b < a || a + 4 * |ws| <= b ==> Byte(StoreWords(m, a, ws), b) == Byte(m, b)
  {
    if ws != [] {
      var m1 := Store(m, a, ws[0]);
      StoreWordsLoads(m1, a + 4, ws[1..]);
      LoadStored(m, a, ws[0]);
      forall k | 0 <= k < |ws| ensures Load(StoreWords(m, a, ws), a + 4 * k) == ws[k] {
        if k > 0 { TailLoads(StoreWords(m, a, ws), a, ws, k); }
      }
    }
  }

  // ---- The machine

  /** The general registers popal restores. */
  datatype Gprs = Gprs(edi: u32, esi: u32, ebp: u32, ebx: u32, edx: u32, ecx: u32, eax: u32)

  datatype Cpu = Cpu(regs: Gprs, eflags: u32, eip: u32, esp: u32, mem: Bytes)

  function Add32(a: u32, b: u32): (r: u32) {
    if a + b < 0x1_0000_0000 then a + b else a + b - 0x1_0000_0000
  }

  function Sub32(a: u32, b: u32): (r: u32) {
    if a >= b then a - b else a + 0x1_0000_0000 - b
  }

  const BASE: u32 := UXSTACKTOP - PGSIZE

  predicate InPage(a: nat) { BASE <= a < UXSTACKTOP }

  /** The test of page_fault_handler: is the interrupted code on the exception stack? */
  predicate OnStack(esp: nat) { BASE < esp < UXSTACKTOP }

  /** A user store of a word needs writable user memory; the page below the exception stack is not mapped. */
  predicate Writable(a: nat) { a + 4 <= USTACKTOP || BASE <= a <= UXSTACKTOP - 4 }

  // ---- The kernel's half

  /** struct UTrapframe in memory order; `oesp` is whatever pushal saved for esp. */
  function UtfWords(c: Cpu, va: u32, err: u32, oesp: u32): (ws: seq<u32>)
    ensures |ws| == 13
  {
    [va, err, c.regs.edi, c.regs.esi, c.regs.ebp, oesp, c.regs.ebx, c.regs.edx, c.regs.ecx, c.regs.eax,
     c.eip, c.eflags, c.esp]
  }

  function StackTop(esp: u32): u32 { if OnStack(esp) then esp else UXSTACKTOP }

  /** Where the frame goes: below one word of scratch space. */
  function FrameAt(esp: u32): int { StackTop(esp) - 56 }

  /** page_fault_handler with an upcall installed; `None`: the environment is destroyed. */
  function PageFault(c: Cpu, upcall: u32, va: u32, err: u32, oesp: u32): (r: Option<Cpu>) {
    if FrameAt(c.esp) < BASE then None
    else Some(Cpu(c.regs, c.eflags, upcall, FrameAt(c.esp),
      StoreWords(c.mem, FrameAt(c.esp), UtfWords(c, va, err, oesp))))
  }

  /**
   struct UTrapframe at `a`: the faulting address, the error code and, but for pushal's esp, the
   interrupted registers.
   */
  ghost predicate Holds(m: Bytes, a: nat, c: Cpu, va: u32, err: u32) {
    && Load(m, a) == va && Load(m, a + 4) == err
    && Load(m, a + 8) == c.regs.edi && Load(m, a + 12) == c.regs.esi && Load(m, a + 16) == c.regs.ebp
    && Load(m, a + 24) == c.regs.ebx && Load(m, a + 28) == c.regs.edx
    && Load(m, a + 32) == c.regs.ecx && Load(m, a + 36) == c.regs.eax
    && Load(m, a + 40) == c.eip && Load(m, a + 44) == c.eflags && Load(m, a + 48) == c.esp
  }

  /** Thirteen words in the order of the struct. */
  ghost predicate HasWords(m: Bytes, a: nat, ws: seq<u32>) {
    forall k :: 0 <= k < |ws| ==> Load(m, a + 4 * k) == ws[k]
  }

  lemma WordsHold(m: Bytes, a: nat, c: Cpu, va: u32, err: u32, oesp: u32)
    requires HasWords(m, a, UtfWords(c, va, err, oesp))
    ensures Holds(m, a, c, va, err) && Load(m, a + 20) == oesp
  {
    var ws := UtfWords(c, va, err, oesp);
    assert Load(m, a + 4 * 0) == ws[0] && Load(m, a + 4 * 1) == ws[1];
    assert Load(m, a + 4 * 2) == ws[2] && Load(m, a + 4 * 3) == ws[3] && Load(m, a + 4 * 4) == ws[4];
    assert Load(m, a + 4 * 5) == ws[5] && Load(m, a + 4 * 6) == ws[6] && Load(m, a + 4 * 7) == ws[7];
    assert Load(m, a + 4 * 8) == ws[8] && Load(m, a + 4 * 9) == ws[9];
    assert Load(m, a + 4 * 10) == ws[10] && Load(m, a + 4 * 11) == ws[11] && Load(m, a + 4 * 12) == ws[12];
  }

  /**
   page_fault_handler in addresses and words. The frame ends one word below the interrupted esp
   when that lies inside the exception stack, and below UXSTACKTOP otherwise; there is one exactly
   when it fits; the upcall starts with esp on it, every other register as it was, and no byte
   outside the frame has changed.
   */
  lemma FaultFrame(c: Cpu, upcall: u32, va: u32, err: u32, oesp: u32)
    ensures var top := if 0xEEBF_F000 < c.esp < 0xEEC0_0000 then c.esp else 0xEEC0_0000;
      var r := PageFault(c, upcall, va, err, oesp);
      && (r.Some? <==> 0xEEBF_F000 <= top - 56)
      && (r.Some? ==>
            && r.value.eip == upcall && r.value.esp == top - 56
            && r.value.regs == c.regs && r.value.eflags == c.eflags
            && Holds(r.value.mem, top - 56, c, va, err) && Load(r.value.mem, top - 36) == oesp
            && forall b: nat :: b < top - 56 || top - 4 <= b ==> Byte(r.value.mem, b) == Byte(c.mem, b))
  {
    if FrameAt(c.esp) >= BASE { FramePushed(c.mem, FrameAt(c.esp), c, va, err, oesp); }
  }

  lemma FramePushed(m: Bytes, a: nat, c: Cpu, va: u32, err: u32, oesp: u32)
    ensures var m' := StoreWords(m, a, UtfWords(c, va, err, oesp));
      && Holds(m', a, c, va, err) && Load(m', a + 20) == oesp
      && forall b: nat :: b < a || a + 52 <= b ==> Byte(m', b) == Byte(m, b)
  {
    var ws := UtfWords(c, va, err, oesp);
    StoreWordsLoads(m, a, ws);
    WordsHold(StoreWords(m, a, ws), a, c, va, err, oesp);
  }

  ghost predicate PushKeepsStack(esp: u32) {
    forall c: Cpu, upcall: u32, va: u32, err: u32, oesp: u32 ::
      c.esp == esp && PageFault(c, upcall, va, err, oesp).Some? ==>
        SameBytes(c.mem, PageFault(c, upcall, va, err, oesp).value.mem, esp, UXSTACKTOP)
  }

  /**
   A fault taken anywhere on the exception stack's page leaves what is in use there alone
   unless esp stands exactly at the bottom of the page: the kernel then takes the
   environment to be on its ordinary stack and overwrites the frames at the top.
   */
  lemma PushKeepsStackIffNotAtBottom(esp: u32)
    requires InPage(esp)
    ensures PushKeepsStack(esp) <==> esp != BASE
  {
    if esp == BASE {
      var c := Cpu(Gprs(0, 0, 0, 0, 0, 0, 0), 0, 0, esp, map[]);
      var r := PageFault(c, 0, 1, 0, 0).value;
      StoreWordsLoads(c.mem, FrameAt(esp), UtfWords(c, 1, 0, 0));
      assert Load(r.mem, FrameAt(esp) + 4 * 0) == 1;
      assert Load(c.mem, FrameAt(esp)) == 0;
      assert !SameBytes(c.mem, r.mem, esp, UXSTACKTOP);
    } else {
      forall c: Cpu, upcall: u32, va: u32, err: u32, oesp: u32
        | c.esp == esp && PageFault(c, upcall, va, err, oesp).Some?
        ensures SameBytes(c.mem, PageFault(c, upcall, va, err, oesp).value.mem, esp, UXSTACKTOP)
      {
        StoreWordsLoads(c.mem, FrameAt(esp), UtfWords(c, va, err, oesp));
      }
    }
  }

  // ---- _pgfault_upcall

  datatype Instr =
    | PushEsp | MovHandlerEax | CallEax | AddEsp(n: u32)
    | LoadEax(off: u32) | LoadEdx(off: u32) | SubEdx(n: u32) | StoreEaxAtEdx | StoreEdx(off: u32)
    | Popal | Popfl | PopEsp | Ret

  const UPCALL: seq<Instr> := [
    PushEsp, MovHandlerEax, CallEax, AddEsp(4),
    AddEsp(8), LoadEax(32), LoadEdx(40), SubEdx(4), StoreEaxAtEdx, StoreEdx(40),
    Popal, AddEsp(4), Popfl, PopEsp, Ret]

  /** Byte offset of instruction `i` of the upcall. */
  function Offset(i: nat): (o: nat)
    requires i <= 14
    ensures o <= 37
  {
    [0, 1, 6, 8, 11, 14, 18, 22, 25, 27, 31, 32, 35, 36, 37][i]
  }

  /**
   What surrounds a fault: the upcall's address, the C handler's address, the addresses
   outside the exception stack that handlers may write, and the flags arithmetic leaves.
   */
  datatype Program = Program(upcall: u32, handler: u32, touched: set<nat>, alu: (u32, u32) -> u32)

  function CodeAt(p: Program, i: nat): u32
    requires i <= 14
  {
    Add32(p.upcall, Offset(i))
  }

  /** The address after instruction `i`; `ret` does not use it. */
  function After(p: Program, i: nat): u32
    requires i <= 14
  {
    CodeAt(p, if i < 14 then i + 1 else i)
  }

  /**
   One fault and all that happens until it is over: the run of the C handler, and for each
   instruction of the upcall the faults it takes before it succeeds.
   */
  datatype Trip = Trip(va: u32, err: u32, oesp: u32, handler: Handler, before: seq<Trips>)
  datatype Trips = NoTrips | Trips(first: Trip, rest: Trips)

  /** A handler computes, faults and returns. */
  datatype Handler =
    | Return(regs: Gprs, eflags: u32)
    | Work(regs: Gprs, eflags: u32, eip: u32, esp: u32, writes: Bytes, next: Handler)
    | Faults(trip: Trip, next: Handler)

  /**
   `Back`: control is back where the fault happened. `Destroyed`: the stack overflowed or a
   store hit memory no handler can make writable. `Astray`: the handler left its discipline,
   or a fault came with esp at the bottom of the exception stack.
   */
  datatype Outcome = Back(cpu: Cpu) | Destroyed | Astray

  /** Every instruction but the call. */
  function Exec(p: Program, c: Cpu, ins: Instr, next: u32): (r: Outcome)
    requires !ins.CallEax?
  {
    match ins
    case PushEsp =>
      if c.esp < 4 || !Writable(c.esp - 4) then Destroyed
      else Back(c.(eip := next, esp := c.esp - 4, mem := Store(c.mem, c.esp - 4, c.esp)))
    case MovHandlerEax => Back(c.(eip := next, regs := c.regs.(eax := p.handler)))
    case AddEsp(n) => Back(c.(eip := next, esp := Add32(c.esp, n), eflags := p.alu(c.esp, n)))
    case LoadEax(off) => Back(c.(eip := next, regs := c.regs.(eax := Load(c.mem, Add32(c.esp, off)))))
    case LoadEdx(off) => Back(c.(eip := next, regs := c.regs.(edx := Load(c.mem, Add32(c.esp, off)))))
    case SubEdx(n) =>
      Back(c.(eip := next, regs := c.regs.(edx := Sub32(c.regs.edx, n)), eflags := p.alu(c.regs.edx, n)))
    case StoreEaxAtEdx =>
      if !Writable(c.regs.edx) then Destroyed
      else Back(c.(eip := next, mem := Store(c.mem, c.regs.edx, c.regs.eax)))
    case StoreEdx(off) =>
      var a := Add32(c.esp, off);
      if !Writable(a) then Destroyed
      else Back(c.(eip := next, mem := Store(c.mem, a, c.regs.edx)))
    case Popal =>
      // edi, esi, ebp, a skipped word, ebx, edx, ecx, eax
      var m, s := c.mem, c.esp;
      Back(c.(eip := next, esp := Add32(s, 32),
              regs := Gprs(Load(m, s), Load(m, s + 4), Load(m, s + 8), Load(m, s + 16),
                 Load(m, s + 20), Load(m, s + 24), Load(m, s + 28))))
    case Popfl => Back(c.(eip := next, esp := Add32(c.esp, 4), eflags := Load(c.mem, c.esp)))
    case PopEsp => Back(c.(eip := next, esp := Load(c.mem, c.esp)))
    case Ret => Back(c.(eip := Load(c.mem, c.esp), esp := Add32(c.esp, 4)))
  }

  /** The handler's stores stay below its frame on the exception stack, or in its own argument slot. */
  predicate WritesOk(p: Program, writes: Bytes, frame: u32) {
    forall a :: a in writes ==> if InPage(a) then a + 8 < frame || frame - 4 <= a < frame else a in p.touched
  }

  /** A fault from beginning to end. */
  function RunTrip(p: Program, c: Cpu, t: Trip): (r: Outcome)
    decreases t, 20
  {
    if c.esp == BASE then Astray
    else
      match PageFault(c, p.upcall, t.va, t.err, t.oesp)
      case None => Destroyed
      case Some(c1) => RunUpcall(p, c1, t, c1.esp, 0)
  }

  function RunTrips(p: Program, c: Cpu, ts: Trips): (r: Outcome)
    decreases ts, 0
  {
    match ts
    case NoTrips => Back(c)
    case Trips(first, rest) =>
      match RunTrip(p, c, first)
      case Back(c1) => RunTrips(p, c1, rest)
      case o => o
  }

  /** The faults instruction `i` takes. */
  function RunBefore(p: Program, c: Cpu, t: Trip, i: nat): (r: Outcome)
    decreases t, 1
  {
    if i < |t.before| then RunTrips(p, c, t.before[i]) else Back(c)
  }

  /** The upcall from instruction `i` on, for the frame at `frame`. */
  function RunUpcall(p: Program, c: Cpu, t: Trip, frame: u32, i: nat): (r: Outcome)
    requires i <= 15
    decreases t, 19 - i
  {
    if i == 15 then Back(c)
    else
      match RunBefore(p, c, t, i)
      case Back(c1) =>
        (match RunInstr(p, c1, t, frame, i)
         case Back(c2) => RunUpcall(p, c2, t, frame, i + 1)
         case o => o)
      case o => o
  }

  function RunInstr(p: Program, c: Cpu, t: Trip, frame: u32, i: nat): (r: Outcome)
    requires i < 15
    decreases t, 1
  {
    if UPCALL[i].CallEax? then
      if c.esp < 4 || !Writable(c.esp - 4) then Destroyed
      else
        var pushed := c.(eip := c.regs.eax, esp := c.esp - 4, mem := Store(c.mem, c.esp - 4, CodeAt(p, i + 1)));
        RunHandler(p, pushed, t.handler, frame)
    else Exec(p, c, UPCALL[i], After(p, i))
  }

  /** The C handler: it returns with the stack pointer it was entered with. */
  function RunHandler(p: Program, c: Cpu, h: Handler, frame: u32): (r: Outcome)
    decreases h, 0
  {
    match h
    case Return(regs, eflags) =>
      if frame < 8 then Astray
      else Back(Cpu(regs, eflags, Load(c.mem, frame - 8), frame - 4, c.mem))
    case Work(regs, eflags, eip, esp, writes, next) =>
      if !WritesOk(p, writes, frame) || !(BASE <= esp && esp + 8 <= frame) then Astray
      else RunHandler(p, Cpu(regs, eflags, eip, esp, c.mem + writes), next, frame)
    case Faults(trip, next) =>
      match RunTrip(p, c, trip)
      case Back(c1) => RunHandler(p, c1, next, frame)
      case o => o
  }

  // ---- What comes back

  /** The longest chain of faults in which each is taken by the `ret` that ends the one before. */
  function RetDepth(t: Trip): nat
    decreases t, 1
  {
    if |t.before| <= 14 then 0 else RetDepths(t.before[14])
  }

  function RetDepths(ts: Trips): nat
    decreases ts, 0
  {
    match ts
    case NoTrips => 0
    case Trips(first, rest) => var a, b := RetDepth(first) + 1, RetDepths(rest); if a > b then a else b
  }

  /** Bytes that a fault at `esp` must give back as they were. */
  predicate Kept(p: Program, esp: nat, depth: nat, a: nat) {
    if InPage(a) then OnStack(esp) && esp <= a
    else a !in p.touched && (OnStack(esp) || !(esp <= a + 4 * (depth + 1) && a < esp))
  }

  ghost predicate KeptBytes(p: Program, esp: nat, depth: nat, m: Bytes, m': Bytes) {
    forall a: nat :: Kept(p, esp, depth, a) ==> Byte(m', a) == Byte(m, a)
  }

  /** The machine is where it was, apart from bytes nobody was using. */
  ghost predicate Restored(p: Program, depth: nat, c: Cpu, c': Cpu) {
    c' == c.(mem := c'.mem) && KeptBytes(p, c.esp, depth, c.mem, c'.mem)
  }

  /** Handlers do not write the words just below an ordinary stack pointer. */
  ghost predicate Clear(p: Program, esp: nat, depth: nat) {
    !OnStack(esp) ==> forall a :: a in p.touched ==> !(esp <= a + 4 * (depth + 1) && a < esp)
  }

  // ---- The upcall, instruction by instruction

  function EspAt(frame: u32, esp: u32, i: nat): u32
    requires i <= 15 && frame + 56 <= UXSTACKTOP
  {
    if i == 0 || i == 4 then frame
    else if i < 4 then Sub32(frame, 4)
    else if i <= 10 then frame + 8
    else if i == 11 then frame + 40
    else if i == 12 then frame + 44
    else if i == 13 then frame + 48
    else if i == 14 then Sub32(esp, 4)
    else esp
  }

  /** The first frame word instructions from `i` on still read. */
  function Live(i: nat): nat {
    if i <= 2 then 0 else if i <= 10 then 2 else if i <= 13 then i - 1 else 13
  }

  /** Word `k` of the frame when instruction `i` is next. */
  function Slot(c0: Cpu, t: Trip, i: nat, k: nat): u32
    requires k < 13
  {
    if k == 12 && i >= 10 then Sub32(c0.esp, 4) else UtfWords(c0, t.va, t.err, t.oesp)[k]
  }

  ghost predicate Frame(c0: Cpu, t: Trip, frame: u32, i: nat, m: Bytes) {
    forall k :: Live(i) <= k < 13 ==> Load(m, frame + 4 * k) == Slot(c0, t, i, k)
  }

  /** What holds when instruction `i` is next; 15 is the end. */
  ghost predicate Stage(p: Program, c0: Cpu, t: Trip, depth: nat, frame: u32, i: nat, c: Cpu)
    requires i <= 15 && frame + 56 <= UXSTACKTOP
  {
    && c.eip == (if i < 15 then CodeAt(p, i) else c0.eip)
    && c.esp == EspAt(frame, c0.esp, i) && (i < 14 ==> BASE <= c.esp)
    && Frame(c0, t, frame, i, c.mem)
    && (1 <= i <= 2 ==> Load(c.mem, c.esp) == frame) && (i == 2 ==> c.regs.eax == p.handler)
    && (i >= 6 && i <= 8 ==> c.regs.eax == c0.eip)
    && (i == 7 ==> c.regs.edx == c0.esp)
    && ((i == 8 || i == 9) ==> c.regs.edx == Sub32(c0.esp, 4))
    && (9 <= i <= 14 ==> Writable(Sub32(c0.esp, 4)) && Load(c.mem, Sub32(c0.esp, 4)) == c0.eip)
    && (i >= 11 ==> c.regs == c0.regs)
    && (i >= 13 ==> c.eflags == c0.eflags)
    && KeptBytes(p, c0.esp, depth, c0.mem, c.mem)
  }

  /** A trip's setting: where its frame is. */
  ghost predicate Setting(p: Program, c0: Cpu, depth: nat, frame: u32) {
    c0.esp != BASE && FrameAt(c0.esp) == frame && BASE <= frame && Clear(p, c0.esp, depth)
  }

  lemma PushReachesStageZero(p: Program, c0: Cpu, t: Trip, depth: nat)
    requires Setting(p, c0, depth, FrameAt(c0.esp)) 
    ensures Stage(p, c0, t, depth, FrameAt(c0.esp), 0, PageFault(c0, p.upcall, t.va, t.err, t.oesp).value)
  {
    StoreWordsLoads(c0.mem, FrameAt(c0.esp), UtfWords(c0, t.va, t.err, t.oesp));
  }

  lemma FrameCarries(c0: Cpu, t: Trip, frame: u32, i: nat, m: Bytes, m': Bytes)
    requires Frame(c0, t, frame, i, m) && i != 9
    requires forall k :: Live(i + 1) <= k < 13 ==> SameBytes(m, m', frame + 4 * k, frame + 4 * k + 4)
    ensures Frame(c0, t, frame, i + 1, m')
  {
    forall k | Live(i + 1) <= k < 13 ensures Load(m', frame + 4 * k) == Slot(c0, t, i + 1, k) {
      assert Load(m, frame + 4 * k) == Slot(c0, t, i, k) == Slot(c0, t, i + 1, k);
      assert SameBytes(m, m', frame + 4 * k, frame + 4 * k + 4);
    }
  }

  /** The handler's address, and the instructions that step over the argument, the address and the error code. */
  lemma EarlyInstr(p: Program, c0: Cpu, t: Trip, depth: nat, frame: u32, i: nat, c: Cpu)
    requires Setting(p, c0, depth, frame) && i in {1, 3, 4, 7} && Stage(p, c0, t, depth, frame, i, c)
    ensures Exec(p, c, UPCALL[i], After(p, i)).Back?
    ensures Stage(p, c0, t, depth, frame, i + 1, Exec(p, c, UPCALL[i], After(p, i)).cpu)
  {
    FrameCarries(c0, t, frame, i, c.mem, c.mem);
  }

  /** The two loads of the trap-time eip and esp. */
  lemma LoadInstr(p: Program, c0: Cpu, t: Trip, depth: nat, frame: u32, i: nat, c: Cpu)
    requires Setting(p, c0, depth, frame) && i in {5, 6} && Stage(p, c0, t, depth, frame, i, c)
    ensures Exec(p, c, UPCALL[i], After(p, i)).Back?
    ensures Stage(p, c0, t, depth, frame, i + 1, Exec(p, c, UPCALL[i], After(p, i)).cpu)
  {
    FrameCarries(c0, t, frame, i, c.mem, c.mem);
    if i == 5 {
      assert Load(c.mem, frame + 4 * 10) == Slot(c0, t, i, 10);
    } else {
      assert Load(c.mem, frame + 4 * 12) == Slot(c0, t, i, 12);
    }
  }

  /** popal gives every general register back. */
  lemma PopalInstr(p: Program, c0: Cpu, t: Trip, depth: nat, frame: u32, i: nat, c: Cpu)
    requires Setting(p, c0, depth, frame) && i == 10 && Stage(p, c0, t, depth, frame, i, c)
    ensures Exec(p, c, UPCALL[i], After(p, i)).Back?
    ensures Stage(p, c0, t, depth, frame, i + 1, Exec(p, c, UPCALL[i], After(p, i)).cpu)
  {
    FrameCarries(c0, t, frame, i, c.mem, c.mem);
    PopalLoads(c0, t, frame, c);
  }

  /** popfl, the switch of stacks and ret. */
  lemma LateInstr(p: Program, c0: Cpu, t: Trip, depth: nat, frame: u32, i: nat, c: Cpu)
    requires Setting(p, c0, depth, frame) && 11 <= i <= 14 && Stage(p, c0, t, depth, frame, i, c)
    ensures Exec(p, c, UPCALL[i], After(p, i)).Back?
    ensures Stage(p, c0, t, depth, frame, i + 1, Exec(p, c, UPCALL[i], After(p, i)).cpu)
  {
    FrameCarries(c0, t, frame, i, c.mem, c.mem);
    if i == 12 {
      assert Load(c.mem, frame + 4 * 11) == Slot(c0, t, i, 11);
    } else if i == 13 {
      assert Load(c.mem, frame + 4 * 12) == Slot(c0, t, i, 12);
    }
  }

  lemma PopalLoads(c0: Cpu, t: Trip, frame: u32, c: Cpu)
    requires Frame(c0, t, frame, 10, c.mem) && c.esp == frame + 8 && frame + 56 <= UXSTACKTOP
    ensures var m, s := c.mem, c.esp;
      Gprs(Load(m, s), Load(m, s + 4), Load(m, s + 8), Load(m, s + 16),
        Load(m, s + 20), Load(m, s + 24), Load(m, s + 28)) == c0.regs
  {
    assert forall k :: 2 <= k <= 9 ==> Load(c.mem, frame + 4 * k) == UtfWords(c0, t.va, t.err, t.oesp)[k] by {
      assert forall k :: 2 <= k <= 9 ==> Slot(c0, t, 10, k) == UtfWords(c0, t.va, t.err, t.oesp)[k];
    }
    var w := UtfWords(c0, t.va, t.err, t.oesp);
    assert w[2] == c0.regs.edi && w[3] == c0.regs.esi && w[4] == c0.regs.ebp && w[6] == c0.regs.ebx;
    assert w[7] == c0.regs.edx && w[8] == c0.regs.ecx && w[9] == c0.regs.eax;
  }

  /** A word of the frame, or any other that lies clear of the one stored. */
  lemma StoreClear(m: Bytes, a: nat, v: u32, b: nat)
    requires b + 4 <= a || a + 4 <= b
    ensures SameBytes(m, Store(m, a, v), b, b + 4) && Load(Store(m, a, v), b) == Load(m, b)
  {
  }

  lemma PushedFrame(c0: Cpu, t: Trip, frame: u32, m: Bytes)
    requires BASE <= frame && Frame(c0, t, frame, 0, m)
    ensures Frame(c0, t, frame, 1, Store(m, frame - 4, frame))
  {
    forall k | Live(1) <= k < 13
      ensures SameBytes(m, Store(m, frame - 4, frame), frame + 4 * k, frame + 4 * k + 4)
    {
      StoreClear(m, frame - 4, frame, frame + 4 * k);
    }
    FrameCarries(c0, t, frame, 0, m, Store(m, frame - 4, frame));
  }

  lemma PushArgument(p: Program, c0: Cpu, t: Trip, depth: nat, frame: u32, c: Cpu)
    requires Setting(p, c0, depth, frame) && Stage(p, c0, t, depth, frame, 0, c)
    ensures var r := Exec(p, c, PushEsp, After(p, 0)); r.Back? ==> Stage(p, c0, t, depth, frame, 1, r.cpu)
  {
    ExecPushEsp(p, c, frame);
    if Exec(p, c, PushEsp, After(p, 0)).Back? {
      ArgumentMemory(p, c0, t, depth, frame, c.mem);
      StageOne(p, c0, t, depth, frame, c, Store(c.mem, frame - 4, frame));
    }
  }

  lemma ArgumentMemory(p: Program, c0: Cpu, t: Trip, depth: nat, frame: u32, m: Bytes)
    requires Setting(p, c0, depth, frame) && BASE <= frame - 4 && frame + 56 <= UXSTACKTOP
    requires Frame(c0, t, frame, 0, m) && KeptBytes(p, c0.esp, depth, c0.mem, m)
    ensures var m' := Store(m, frame - 4, frame);
      Frame(c0, t, frame, 1, m') && KeptBytes(p, c0.esp, depth, c0.mem, m') && Load(m', frame - 4) == frame
  {
    LoadStored(m, frame - 4, frame);
    PushedFrame(c0, t, frame, m);
    StoreInScratch(p, c0, depth, frame, m, frame - 4, frame);
  }

  lemma ExecPushEsp(p: Program, c: Cpu, frame: u32)
    requires BASE <= frame && frame + 56 <= UXSTACKTOP && c.esp == frame
    ensures var r := Exec(p, c, PushEsp, After(p, 0));
      r.Back? ==>
        BASE <= frame - 4 && r.cpu == c.(eip := After(p, 0), esp := frame - 4, mem := Store(c.mem, frame - 4, frame))
  {
  }

  lemma StageOne(p: Program, c0: Cpu, t: Trip, depth: nat, frame: u32, c: Cpu, m: Bytes)
    requires Setting(p, c0, depth, frame) && BASE <= frame - 4 && frame + 56 <= UXSTACKTOP
    requires Frame(c0, t, frame, 1, m) && Load(m, frame - 4) == frame && KeptBytes(p, c0.esp, depth, c0.mem, m)
    ensures Stage(p, c0, t, depth, frame, 1, c.(eip := After(p, 0), esp := frame - 4, mem := m))
  {
  }

  /** The trap-time eip goes just below the trap-time esp. */
  lemma StoreEip(p: Program, c0: Cpu, t: Trip, depth: nat, frame: u32, c: Cpu)
    requires Setting(p, c0, depth, frame) && Stage(p, c0, t, depth, frame, 8, c)
    ensures Exec(p, c, StoreEaxAtEdx, After(p, 8)).Back? ==>
              Stage(p, c0, t, depth, frame, 9, Exec(p, c, StoreEaxAtEdx, After(p, 8)).cpu)
  {
    if Exec(p, c, StoreEaxAtEdx, After(p, 8)).Back? {
      var a := Sub32(c0.esp, 4);
      LoadStored(c.mem, a, c0.eip);
      EipClearsFrame(c0, t, frame, c.mem, a);
    }
  }

  lemma EipClearsFrame(c0: Cpu, t: Trip, frame: u32, m: Bytes, a: u32)
    requires Frame(c0, t, frame, 8, m)
    requires forall k :: Live(9) <= k < 13 ==> frame + 4 * k + 4 <= a || a + 4 <= frame + 4 * k
    ensures Frame(c0, t, frame, 9, Store(m, a, c0.eip))
  {
    forall k | Live(9) <= k < 13 ensures SameBytes(m, Store(m, a, c0.eip), frame + 4 * k, frame + 4 * k + 4) {
      StoreClear(m, a, c0.eip, frame + 4 * k);
    }
    FrameCarries(c0, t, frame, 8, m, Store(m, a, c0.eip));
  }

  lemma StoreNewEsp(p: Program, c0: Cpu, t: Trip, depth: nat, frame: u32, c: Cpu)
    requires Setting(p, c0, depth, frame) && Stage(p, c0, t, depth, frame, 9, c)
    ensures Exec(p, c, StoreEdx(40), After(p, 9)).Back?
    ensures Stage(p, c0, t, depth, frame, 10, Exec(p, c, StoreEdx(40), After(p, 9)).cpu)
  {
    NewEspMemory(p, c0, t, depth, frame, c.mem);
    ExecStoreEdx(p, c, frame);
    StageTen(p, c0, t, depth, frame, c, Store(c.mem, frame + 48, Sub32(c0.esp, 4)));
  }

  lemma NewEspMemory(p: Program, c0: Cpu, t: Trip, depth: nat, frame: u32, m: Bytes)
    requires Setting(p, c0, depth, frame) && Frame(c0, t, frame, 9, m) && KeptBytes(p, c0.esp, depth, c0.mem, m)
    requires Writable(Sub32(c0.esp, 4))
    ensures var m' := Store(m, frame + 48, Sub32(c0.esp, 4));
      && Frame(c0, t, frame, 10, m') && KeptBytes(p, c0.esp, depth, c0.mem, m')
      && Load(m', Sub32(c0.esp, 4)) == Load(m, Sub32(c0.esp, 4))
  {
    var a, v := frame + 48, Sub32(c0.esp, 4);
    StoreClear(m, a, v, v);
    NewEspFrame(c0, t, frame, m);
    StoreInScratch(p, c0, depth, frame, m, a, v);
  }

  lemma ExecStoreEdx(p: Program, c: Cpu, frame: u32)
    requires BASE <= frame && frame + 56 <= UXSTACKTOP && c.esp == frame + 8
    ensures Exec(p, c, StoreEdx(40), After(p, 9)) ==
      Back(c.(eip := After(p, 9), mem := Store(c.mem, frame + 48, c.regs.edx)))
  {
  }

  lemma StageTen(p: Program, c0: Cpu, t: Trip, depth: nat, frame: u32, c: Cpu, m: Bytes)
    requires Setting(p, c0, depth, frame) && Stage(p, c0, t, depth, frame, 9, c)
    requires Frame(c0, t, frame, 10, m) && KeptBytes(p, c0.esp, depth, c0.mem, m)
    requires Load(m, Sub32(c0.esp, 4)) == c0.eip
    ensures Stage(p, c0, t, depth, frame, 10, c.(eip := After(p, 9), mem := m))
  {
  }

  /** After the store only the frame's esp word differs. */
  lemma NewEspFrame(c0: Cpu, t: Trip, frame: u32, m: Bytes)
    requires Frame(c0, t, frame, 9, m)
    ensures Frame(c0, t, frame, 10, Store(m, frame + 48, Sub32(c0.esp, 4)))
  {
    var a, v := frame + 48, Sub32(c0.esp, 4);
    LoadStored(m, a, v);
    forall k | Live(10) <= k < 13 ensures Load(Store(m, a, v), frame + 4 * k) == Slot(c0, t, 10, k) {
      if k < 12 {
        StoreClear(m, a, v, frame + 4 * k);
        assert Load(m, frame + 4 * k) == Slot(c0, t, 9, k);
      }
    }
  }

  /** The exception stack below the trap-time esp is free to use. */
  lemma StoreInScratch(p: Program, c0: Cpu, depth: nat, frame: u32, m: Bytes, a: nat, v: u32)
    requires Setting(p, c0, depth, frame) && BASE <= a && a + 4 <= frame + 56 && KeptBytes(p, c0.esp, depth, c0.mem, m)
    ensures KeptBytes(p, c0.esp, depth, c0.mem, Store(m, a, v))
  {
  }

  // ---- Nesting

  lemma KeptWord(p: Program, depth: nat, c: Cpu, c': Cpu, a: nat)
    requires Restored(p, depth, c, c') && forall b :: a <= b < a + 4 ==> Kept(p, c.esp, depth, b)
    ensures Load(c'.mem, a) == Load(c.mem, a)
  {
  }

  lemma FrameSurvives(p: Program, c0: Cpu, t: Trip, frame: u32, i: nat, c: Cpu, c': Cpu, inner: nat)
    requires Frame(c0, t, frame, i, c.mem) && Restored(p, inner, c, c')
    requires forall b: nat :: frame + 4 * Live(i) <= b < frame + 52 ==> Kept(p, c.esp, inner, b)
    ensures Frame(c0, t, frame, i, c'.mem)
  {
    forall k | Live(i) <= k < 13 ensures Load(c'.mem, frame + 4 * k) == Slot(c0, t, i, k) {
      KeptWord(p, inner, c, c', frame + 4 * k);
    }
  }

  /** A fault taken at instruction `i` and gone again leaves the upcall where it was. */
  lemma StageSurvives(p: Program, c0: Cpu, t: Trip, depth: nat, frame: u32, i: nat, c: Cpu, c': Cpu, inner: nat)
    requires Setting(p, c0, depth, frame) && i < 15 && Stage(p, c0, t, depth, frame, i, c)
    requires c.esp != BASE && Restored(p, inner, c, c') && (i == 14 ==> inner < depth)
    ensures Stage(p, c0, t, depth, frame, i, c')
  {
    assert i < 14 ==> OnStack(c.esp);
    assert forall b: nat :: frame + 4 * Live(i) <= b < frame + 52 ==> Kept(p, c.esp, inner, b);
    FrameSurvives(p, c0, t, frame, i, c, c', inner);
    if 1 <= i <= 2 { KeptWord(p, inner, c, c', c.esp); }
    if 9 <= i {
      var a := Sub32(c0.esp, 4);
      assert forall b :: a <= b < a + 4 ==> Kept(p, c.esp, inner, b);
    }
    forall a: nat | Kept(p, c0.esp, depth, a) ensures Byte(c'.mem, a) == Byte(c0.mem, a) {
      assert Kept(p, c.esp, inner, a);
    }
  }

  /** What a handler may not change: the frame above it, its return address, untouchable memory. */
  predicate HandlerKeeps(p: Program, frame: u32, a: nat) {
    if InPage(a) then frame <= a || frame - 8 <= a < frame - 4 else a !in p.touched
  }

  ghost predicate HandlerKept(p: Program, frame: u32, m: Bytes, m': Bytes) {
    forall a: nat :: HandlerKeeps(p, frame, a) ==> Byte(m', a) == Byte(m, a)
  }

  /** The call and the handler's return together act like an instruction that keeps the frame. */
  lemma CallReturns(p: Program, c0: Cpu, t: Trip, depth: nat, frame: u32, c: Cpu, c': Cpu)
    requires Setting(p, c0, depth, frame) && Stage(p, c0, t, depth, frame, 2, c) && BASE <= frame - 8
    requires HandlerKept(p, frame, Store(c.mem, frame - 8, CodeAt(p, 3)), c'.mem)
    requires c'.esp == frame - 4 && c'.eip == Load(c'.mem, frame - 8)
    ensures Stage(p, c0, t, depth, frame, 3, c')
  {
    LoadStored(c.mem, frame - 8, CodeAt(p, 3));
    assert forall b :: frame - 8 <= b < frame - 4 ==> HandlerKeeps(p, frame, b);
    CallKeepsFrame(p, c0, t, frame, c, c');
    CallKeepsBytes(p, c0, depth, frame, c, c');
  }

  lemma CallKeepsFrame(p: Program, c0: Cpu, t: Trip, frame: u32, c: Cpu, c': Cpu)
    requires BASE <= frame - 8 && frame + 56 <= UXSTACKTOP && Frame(c0, t, frame, 2, c.mem)
    requires HandlerKept(p, frame, Store(c.mem, frame - 8, CodeAt(p, 3)), c'.mem)
    ensures Frame(c0, t, frame, 3, c'.mem)
  {
    forall k | Live(3) <= k < 13 ensures SameBytes(c.mem, c'.mem, frame + 4 * k, frame + 4 * k + 4) {
      StoreClear(c.mem, frame - 8, CodeAt(p, 3), frame + 4 * k);
      assert forall b :: frame + 4 * k <= b < frame + 4 * k + 4 ==> HandlerKeeps(p, frame, b);
    }
    FrameCarries(c0, t, frame, 2, c.mem, c'.mem);
  }

  lemma CallKeepsBytes(p: Program, c0: Cpu, depth: nat, frame: u32, c: Cpu, c': Cpu)
    requires Setting(p, c0, depth, frame) && BASE <= frame - 8 && KeptBytes(p, c0.esp, depth, c0.mem, c.mem)
    requires HandlerKept(p, frame, Store(c.mem, frame - 8, CodeAt(p, 3)), c'.mem)
    ensures KeptBytes(p, c0.esp, depth, c0.mem, c'.mem)
  {
    forall a: nat | Kept(p, c0.esp, depth, a) ensures Byte(c'.mem, a) == Byte(c0.mem, a) {
      assert HandlerKeeps(p, frame, a);
    }
  }

  lemma {:induction false} HandlerReturns(p: Program, c: Cpu, h: Handler, frame: u32)
    requires BASE + 8 <= frame < UXSTACKTOP && c.esp + 8 <= frame && BASE <= c.esp
    ensures var r := RunHandler(p, c, h, frame);
      r.Back? ==>
        HandlerKept(p, frame, c.mem, r.cpu.mem) && r.cpu.esp == frame - 4 && r.cpu.eip == Load(r.cpu.mem, frame - 8)
    decreases h, 0
  {
    var r := RunHandler(p, c, h, frame);
    match h
    case Return(_, _) =>
    case Work(regs, eflags, eip, esp, writes, next) =>
      if r.Back? {
        HandlerReturns(p, Cpu(regs, eflags, eip, esp, c.mem + writes), next, frame);
      }
    case Faults(trip, next) =>
      var o := RunTrip(p, c, trip);
      if r.Back? {
        FaultReturns(p, c, trip, RetDepth(trip));
        HandlerReturns(p, o.cpu, next, frame);
        forall a: nat | HandlerKeeps(p, frame, a) ensures Byte(o.cpu.mem, a) == Byte(c.mem, a) {
          assert Kept(p, c.esp, RetDepth(trip), a);
        }
      }
  }

  lemma {:induction false} TripsReturn(p: Program, c0: Cpu, t: Trip, depth: nat, frame: u32, i: nat, c: Cpu, ts: Trips)
    requires Setting(p, c0, depth, frame) && i < 15 && Stage(p, c0, t, depth, frame, i, c)
    requires (i == 14 ==> RetDepths(ts) <= depth)
    ensures var r := RunTrips(p, c, ts); r.Back? ==> Stage(p, c0, t, depth, frame, i, r.cpu)
    decreases ts, 0
  {
    match ts
    case NoTrips =>
    case Trips(first, rest) =>
      var inner := RetDepth(first);
      var o := RunTrip(p, c, first);
      if o.Back? {
        FaultReturns(p, c, first, inner);
        StageSurvives(p, c0, t, depth, frame, i, c, o.cpu, inner);
        TripsReturn(p, c0, t, depth, frame, i, o.cpu, rest);
      }
  }

  lemma StoreInstr(p: Program, c0: Cpu, t: Trip, depth: nat, frame: u32, i: nat, c: Cpu)
    requires Setting(p, c0, depth, frame) && i in {0, 8, 9} && Stage(p, c0, t, depth, frame, i, c)
    ensures var r := Exec(p, c, UPCALL[i], After(p, i)); r.Back? ==> Stage(p, c0, t, depth, frame, i + 1, r.cpu)
  {
    if i == 0 {
      PushArgument(p, c0, t, depth, frame, c);
    } else if i == 8 {
      StoreEip(p, c0, t, depth, frame, c);
    } else {
      StoreNewEsp(p, c0, t, depth, frame, c);
    }
  }

  lemma OtherInstr(p: Program, c0: Cpu, t: Trip, depth: nat, frame: u32, i: nat, c: Cpu)
    requires Setting(p, c0, depth, frame) && i < 15 && i != 2 && Stage(p, c0, t, depth, frame, i, c)
    ensures var r := Exec(p, c, UPCALL[i], After(p, i)); r.Back? ==> Stage(p, c0, t, depth, frame, i + 1, r.cpu)
  {
    if i in {0, 8, 9} {
      StoreInstr(p, c0, t, depth, frame, i, c);
    } else if i in {1, 3, 4, 7} {
      EarlyInstr(p, c0, t, depth, frame, i, c);
    } else if i in {5, 6} {
      LoadInstr(p, c0, t, depth, frame, i, c);
    } else if i == 10 {
      PopalInstr(p, c0, t, depth, frame, i, c);
    } else {
      LateInstr(p, c0, t, depth, frame, i, c);
    }
  }

  /** One instruction that has stopped faulting. */
  lemma InstrReturns(p: Program, c0: Cpu, t: Trip, depth: nat, frame: u32, i: nat, c: Cpu)
    requires Setting(p, c0, depth, frame) && i < 15 && Stage(p, c0, t, depth, frame, i, c)
    ensures var r := RunInstr(p, c, t, frame, i); r.Back? ==> Stage(p, c0, t, depth, frame, i + 1, r.cpu)
    decreases t, 1
  {
    if i == 2 {
      HandlerCall(p, c0, t, depth, frame, c);
    } else {
      OtherInstr(p, c0, t, depth, frame, i, c);
    }
  }

  lemma HandlerCall(p: Program, c0: Cpu, t: Trip, depth: nat, frame: u32, c: Cpu)
    requires Setting(p, c0, depth, frame) && Stage(p, c0, t, depth, frame, 2, c)
    ensures var r := RunInstr(p, c, t, frame, 2); r.Back? ==> Stage(p, c0, t, depth, frame, 3, r.cpu)
    decreases t, 0
  {
    var pushed := Pushed(p, c);
    CallIsHandler(p, c, t, frame);
    var r := RunInstr(p, c, t, frame, 2);
    if r.Back? {
      HandlerReturns(p, pushed, t.handler, frame);
      CallReturns(p, c0, t, depth, frame, c, r.cpu);
    }
  }

  /** The handler's first state: its return address pushed. */
  function Pushed(p: Program, c: Cpu): (r: Cpu) {
    c.(eip := c.regs.eax, esp := Sub32(c.esp, 4), mem := Store(c.mem, Sub32(c.esp, 4), CodeAt(p, 3)))
  }

  lemma CallIsHandler(p: Program, c: Cpu, t: Trip, frame: u32)
    requires BASE <= frame < UXSTACKTOP && c.esp == frame - 4
    ensures RunInstr(p, c, t, frame, 2).Back? ==>
              BASE + 8 <= frame && RunInstr(p, c, t, frame, 2) == RunHandler(p, Pushed(p, c), t.handler, frame)
  {
  }

  lemma {:induction false} UpcallReturns(p: Program, c0: Cpu, t: Trip, depth: nat, frame: u32, i: nat, c: Cpu)
    requires Setting(p, c0, depth, frame) && i <= 15 && Stage(p, c0, t, depth, frame, i, c) && RetDepth(t) <= depth
    ensures var r := RunUpcall(p, c, t, frame, i); r.Back? ==> Stage(p, c0, t, depth, frame, 15, r.cpu)
    decreases t, 19 - i
  {
    if i < 15 {
      if i < |t.before| { TripsReturn(p, c0, t, depth, frame, i, c, t.before[i]); }
      var o := RunBefore(p, c, t, i);
      if o.Back? {
        InstrReturns(p, c0, t, depth, frame, i, o.cpu);
        var o2 := RunInstr(p, o.cpu, t, frame, i);
        if o2.Back? { UpcallReturns(p, c0, t, depth, frame, i + 1, o2.cpu); }
      }
    }
  }

  /**
   The fault round trip. However deeply the handler and the upcall itself fault, when
   control is back every general register, eflags, eip and esp are as they were; the
   exception stack keeps every byte at or above an interrupted esp there; and elsewhere only
   the handlers' own memory and the word below an ordinary esp have changed (one word more
   for every fault that a `ret` back to the ordinary stack took).
   */
  lemma {:induction false} FaultReturns(p: Program, c: Cpu, t: Trip, depth: nat)
    requires Clear(p, c.esp, depth) && RetDepth(t) <= depth
    ensures RunTrip(p, c, t).Back? ==> Restored(p, depth, c, RunTrip(p, c, t).cpu)
    decreases t, 20
  {
    if RunTrip(p, c, t).Back? {
      PushReachesStageZero(p, c, t, depth);
      var c1 := PageFault(c, p.upcall, t.va, t.err, t.oesp).value;
      UpcallReturns(p, c, t, depth, c1.esp, 0, c1);
    }
  }

  // ---- The way to the handler

  /** The upcall from instruction `i` to its call: the state in which the C handler starts. */
  function RunToCall(p: Program, c: Cpu, t: Trip, frame: u32, i: nat): (r: Outcome)
    requires i <= 2
    decreases 2 - i
  {
    match RunBefore(p, c, t, i)
    case Back(c1) =>
      if i == 2 then
        if c1.esp < 4 || !Writable(c1.esp - 4) then Destroyed else Back(Pushed(p, c1))
      else
        (match RunInstr(p, c1, t, frame, i)
         case Back(c2) => RunToCall(p, c2, t, frame, i + 1)
         case o => o)
    case o => o
  }

  /** A fault up to the start of the C handler. */
  function RunToHandler(p: Program, c: Cpu, t: Trip): (r: Outcome) {
    if c.esp == BASE then Astray
    else
      match PageFault(c, p.upcall, t.va, t.err, t.oesp)
      case None => Destroyed
      case Some(c1) => RunToCall(p, c1, t, c1.esp, 0)
  }

  /** The handler and the rest of the upcall. */
  function RunFromHandler(p: Program, start: Outcome, t: Trip, frame: u32): (r: Outcome) {
    match start
    case Back(c) =>
      (match RunHandler(p, c, t.handler, frame)
       case Back(c1) => RunUpcall(p, c1, t, frame, 3)
       case o => o)
    case o => o
  }

  lemma {:induction false} UpcallCallsHandler(p: Program, c: Cpu, t: Trip, frame: u32, i: nat)
    requires i <= 2
    ensures RunUpcall(p, c, t, frame, i) == RunFromHandler(p, RunToCall(p, c, t, frame, i), t, frame)
    decreases 2 - i
  {
    var o := RunBefore(p, c, t, i);
    if o.Back? {
      if i == 2 {
        CallStartsHandler(p, o.cpu, t, frame);
      } else {
        var o2 := RunInstr(p, o.cpu, t, frame, i);
        if o2.Back? { UpcallCallsHandler(p, o2.cpu, t, frame, i + 1); }
      }
    }
  }

  lemma CallStartsHandler(p: Program, c: Cpu, t: Trip, frame: u32)
    ensures RunInstr(p, c, t, frame, 2) ==
      if c.esp < 4 || !Writable(c.esp - 4) then Destroyed else RunHandler(p, Pushed(p, c), t.handler, frame)
  {
  }

  lemma {:induction false} CallIsReached(p: Program, c0: Cpu, t: Trip, depth: nat, frame: u32, i: nat, c: Cpu)
    requires Setting(p, c0, depth, frame) && i <= 2 && Stage(p, c0, t, depth, frame, i, c)
    ensures var r := RunToCall(p, c, t, frame, i); r.Back? ==> Entered(p, c0, t, frame, r.cpu)
    decreases 2 - i
  {
    if i < |t.before| { TripsReturn(p, c0, t, depth, frame, i, c, t.before[i]); }
    var o := RunBefore(p, c, t, i);
    if o.Back? {
      if i == 2 {
        if RunToCall(p, c, t, frame, i).Back? { CallEnters(p, c0, t, depth, frame, o.cpu); }
      } else {
        InstrReturns(p, c0, t, depth, frame, i, o.cpu);
        var o2 := RunInstr(p, o.cpu, t, frame, i);
        if o2.Back? { CallIsReached(p, c0, t, depth, frame, i + 1, o2.cpu); }
      }
    }
  }

  /**
   The C handler's first state: at its own code, the frame's address as its one argument, the
   instruction after the call as its return address, and the whole frame in place.
   */
  ghost predicate Entered(p: Program, c0: Cpu, t: Trip, frame: u32, c: Cpu) {
    && c.eip == p.handler && c.esp + 8 == frame
    && Load(c.mem, c.esp) == (p.upcall + 8) % 0x1_0000_0000 && Load(c.mem, c.esp + 4) == frame
    && Holds(c.mem, frame, c0, t.va, t.err)
  }

  /** A store below a run of words leaves them as they are. */
  lemma WordsSurvive(m: Bytes, a: nat, ws: seq<u32>, below: nat, v: u32)
    requires HasWords(m, a, ws) && below + 4 <= a
    ensures HasWords(Store(m, below, v), a, ws)
  {
    forall k | 0 <= k < |ws| ensures Load(Store(m, below, v), a + 4 * k) == ws[k] {
      StoreClear(m, below, v, a + 4 * k);
    }
  }

  lemma FrameIsWhole(c0: Cpu, t: Trip, frame: u32, m: Bytes)
    requires Frame(c0, t, frame, 2, m)
    ensures HasWords(m, frame, UtfWords(c0, t.va, t.err, t.oesp))
  {
    forall k | 0 <= k < 13 ensures Load(m, frame + 4 * k) == UtfWords(c0, t.va, t.err, t.oesp)[k] {
      assert Load(m, frame + 4 * k) == Slot(c0, t, 2, k);
    }
  }

  /** What the call's push leaves in memory. */
  lemma CallMemory(m: Bytes, frame: nat, ws: seq<u32>, ra: u32, arg: u32) returns (m': Bytes)
    requires frame >= 8 && HasWords(m, frame, ws) && Load(m, frame - 4) == arg
    ensures m' == Store(m, frame - 8, ra)
    ensures HasWords(m', frame, ws) && Load(m', frame - 8) == ra && Load(m', frame - 4) == arg
  {
    WordsSurvive(m, frame, ws, frame - 8, ra);
    LoadStored(m, frame - 8, ra);
    StoreClear(m, frame - 8, ra, frame - 4);
    m' := Store(m, frame - 8, ra);
  }

  lemma EntersWith(p: Program, c0: Cpu, t: Trip, frame: u32, c: Cpu)
    requires frame >= 8 && c.eip == p.handler && c.esp == frame - 8
    requires HasWords(c.mem, frame, UtfWords(c0, t.va, t.err, t.oesp))
    requires Load(c.mem, frame - 8) == CodeAt(p, 3) && Load(c.mem, frame - 4) == frame
    ensures Entered(p, c0, t, frame, c)
  {
    WordsHold(c.mem, frame, c0, t.va, t.err, t.oesp);
    ReturnAddress(p);
  }

  lemma CallEnters(p: Program, c0: Cpu, t: Trip, depth: nat, frame: u32, c: Cpu)
    requires Setting(p, c0, depth, frame) && Stage(p, c0, t, depth, frame, 2, c)
    requires Writable(c.esp - 4)
    ensures Entered(p, c0, t, frame, Pushed(p, c))
  {
    FrameIsWhole(c0, t, frame, c.mem);
    var m' := CallMemory(c.mem, frame, UtfWords(c0, t.va, t.err, t.oesp), CodeAt(p, 3), frame);
    var c' := Cpu(c.regs, c.eflags, p.handler, frame - 8, m');
    assert Pushed(p, c) == c';
    EntersWith(p, c0, t, frame, c');
  }

  lemma ReturnAddress(p: Program)
    ensures CodeAt(p, 3) == (p.upcall + 8) % 0x1_0000_0000
  {
    assert Offset(3) == 8;
  }

  lemma HandlerReached(p: Program, c: Cpu, t: Trip, depth: nat)
    requires Clear(p, c.esp, depth) && RunToHandler(p, c, t).Back?
    ensures FrameAt(c.esp) >= BASE && Entered(p, c, t, FrameAt(c.esp), RunToHandler(p, c, t).cpu)
  {
    PushReachesStageZero(p, c, t, depth);
    CallIsReached(p, c, t, depth, FrameAt(c.esp), 0, PageFault(c, p.upcall, t.va, t.err, t.oesp).value);
  }

  lemma TripCallsHandler(p: Program, c: Cpu, t: Trip)
    ensures var r := RunToHandler(p, c, t);
      if r.Back? then FrameAt(c.esp) >= BASE && RunTrip(p, c, t) == RunFromHandler(p, r, t, FrameAt(c.esp))
      else RunTrip(p, c, t) == r
  {
    if c.esp != BASE && FrameAt(c.esp) >= BASE {
      UpcallCallsHandler(p, PageFault(c, p.upcall, t.va, t.err, t.oesp).value, t, FrameAt(c.esp), 0);
    }
  }

  /**
   However the upcall itself faults on the way, the C handler is entered at its own address with
   the address of the complete frame as its argument; and the fault then is the handler's run and
   the rest of the upcall.
   */
  lemma HandlerIsEntered(p: Program, c: Cpu, t: Trip, depth: nat)
    requires Clear(p, c.esp, depth)
    ensures var top := if 0xEEBF_F000 < c.esp < 0xEEC0_0000 then c.esp else 0xEEC0_0000;
      var r := RunToHandler(p, c, t);
      if r.Back? then
        && top >= 56 && Entered(p, c, t, top - 56, r.cpu)
        && RunTrip(p, c, t) == RunFromHandler(p, r, t, top - 56)
      else RunTrip(p, c, t) == r
  {
    TripCallsHandler(p, c, t);
    if RunToHandler(p, c, t).Back? { HandlerReached(p, c, t, depth); }
  }

  // ---- The way back is open

  /** What instructions from `i` on still need: room for the call, and a writable word below the trap-time esp. */
  ghost predicate Passable(c0: Cpu, frame: u32, i: nat) {
    (i <= 2 ==> BASE + 8 <= frame) && (i <= 8 ==> Writable(Sub32(c0.esp, 4)))
  }

  lemma PlainInstr(p: Program, c0: Cpu, t: Trip, frame: u32, i: nat, c: Cpu)
    requires Setting(p, c0, 0, frame) && i < 15 && Stage(p, c0, t, 0, frame, i, c) && t.handler.Return?
    ensures Passable(c0, frame, i) ==> RunInstr(p, c, t, frame, i).Back?
    ensures RunInstr(p, c, t, frame, i).Back? ==>
      (i == 2 ==> BASE + 8 <= frame) && (i == 8 ==> Writable(Sub32(c0.esp, 4)))
  {
    if i in {1, 3, 4, 7} {
      EarlyInstr(p, c0, t, 0, frame, i, c);
    } else if i in {5, 6} {
      LoadInstr(p, c0, t, 0, frame, i, c);
    } else if i == 9 {
      StoreNewEsp(p, c0, t, 0, frame, c);
    } else if i == 10 {
      PopalInstr(p, c0, t, 0, frame, i, c);
    } else if i > 10 {
      LateInstr(p, c0, t, 0, frame, i, c);
    }
  }

  lemma {:induction false} PlainUpcall(p: Program, c0: Cpu, t: Trip, frame: u32, i: nat, c: Cpu)
    requires Setting(p, c0, 0, frame) && i <= 15 && Stage(p, c0, t, 0, frame, i, c)
    requires t.handler.Return? && t.before == []
    ensures RunUpcall(p, c, t, frame, i).Back? <==> Passable(c0, frame, i)
    decreases 15 - i
  {
    if i < 15 {
      PlainInstr(p, c0, t, frame, i, c);
      var o := RunInstr(p, c, t, frame, i);
      if o.Back? {
        InstrReturns(p, c0, t, 0, frame, i, c);
        PlainUpcall(p, c0, t, frame, i + 1, o.cpu);
      }
    }
  }

  /**
   A fault whose handler just returns is over, with the machine restored, exactly when
   esp is not at the bottom of the exception stack, the frame and the call fit above that
   bottom, and the word below esp can be written.
   */
  lemma PlainFaultReturns(p: Program, c: Cpu, va: u32, err: u32, oesp: u32, regs: Gprs, eflags: u32)
    requires Clear(p, c.esp, 0)
    ensures var r := RunTrip(p, c, Trip(va, err, oesp, Return(regs, eflags), []));
      && (r.Back? <==> c.esp != BASE && BASE + 8 <= FrameAt(c.esp) && Writable(Sub32(c.esp, 4)))
      && (r.Back? ==> Restored(p, 0, c, r.cpu))
  {
    var t := Trip(va, err, oesp, Return(regs, eflags), []);
    FaultReturns(p, c, t, 0);
    if c.esp != BASE && BASE <= FrameAt(c.esp) {
      PushReachesStageZero(p, c, t, 0);
      var c1 := PageFault(c, p.upcall, va, err, oesp).value;
      PlainUpcall(p, c, t, c1.esp, 0, c1);
    }
  }
}
