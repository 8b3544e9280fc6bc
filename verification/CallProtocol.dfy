/**
  The x86-64 (SysV) call protocol: what the translator emits at function entries, local calls and exits,
  laid out slot after slot, and what that code does to the host stack.
  */
module CallProtocol {
  import opened Words
  import opened Isa
  import opened Semantics
  import opened Machine
  import opened SubPrograms
  import Legacy

  /** The host instructions of the protocol; `Body(i)` stands for the code of any other eBPF instruction. */
  datatype HostInst =
    | Body(slot: nat)
    | SubTop                 // sub r15, [rsp]
    | AddTop                 // add r15, [rsp]
    | PushReg(reg: u4)
    | PopReg(reg: u4)
    | CallTo(target: nat)
    | Ret
    | Reserve                // sub rsp, 8
    | StoreTop(usage: u16)   // mov qword [rsp], usage
    | Release                // add rsp, 8
    | JumpTo(target: nat)
    | Leave                  // the jump to the epilogue

  datatype Slot = Num(v: u64) | Address(ip: nat) | Garbage

  /** The eBPF registers live in host registers; the host stack has its top last. */
  datatype Host = Host(ip: nat, regs: Regs, stack: seq<Slot>, mem: Memory)

  // ---------------------------------------------------------------- layout

  const SETUP: nat := 2
  const EXIT_STUB: nat := 1
  const PROLOGUE: nat := 2

  predicate IsEntry(env: Env, i: nat) { i == 0 || i in env.funcs }

  /** A function entry the previous instruction can fall into gets a jump around its prologue. */
  predicate HasBypass(env: Env, i: nat)
    requires i < |env.prog|
  {
    i != 0 && i in env.funcs && env.prog[i - 1].opcode != 0x95
  }

  /** The number of host instructions before slot `i`'s own code. */
  function PrefixLength(env: Env, i: nat): nat
    requires i < |env.prog|
  {
    if env.prog[i].opcode == 0 then 0
    else (if HasBypass(env, i) then 1 else 0) + if IsEntry(env, i) then PROLOGUE else 0
  }

  function OwnLength(env: Env, i: nat): nat
    requires i < |env.prog|
  {
    if env.prog[i].opcode == 0 then 0
    else if IsLocalCall(env.prog, i) then 11
    else if Decode(env.prog[i].opcode).Exit? then 2
    else 1
  }

  /** Where slot `i`'s code begins, counting from the setup code. */
  function Offset(env: Env, i: nat): nat
    requires i <= |env.prog|
  {
    if i == 0 then SETUP else Offset(env, i - 1) + PrefixLength(env, i - 1) + OwnLength(env, i - 1)
  }

  /** `pc_locs[i]`: just past the prologue, if there is one. */
  function PcLoc(env: Env, i: nat): nat
    requires i < |env.prog|
  {
    Offset(env, i) + PrefixLength(env, i)
  }

  /** A local call goes to the prologue in front of the callee's recorded location. */
  function EntryLoc(env: Env, i: nat): int
    requires i < |env.prog|
  {
    PcLoc(env, i) - PROLOGUE
  }

  function Prefix(env: Env, i: nat): seq<HostInst>
    requires i < |env.prog| <= 65535
  {
    if env.prog[i].opcode == 0 then []
    else
      (if HasBypass(env, i) then [JumpTo(PcLoc(env, i))] else []) +
      (if IsEntry(env, i) then [Reserve, StoreTop(env.usage(i))] else [])
  }

  function LocalCallCode(target: nat): seq<HostInst>
  {
    [SubTop, PushReg(6), PushReg(7), PushReg(8), PushReg(9), CallTo(target),
     PopReg(9), PopReg(8), PopReg(7), PopReg(6), AddTop]
  }

  function Own(env: Env, i: nat): seq<HostInst>
    requires i < |env.prog| && CallsInRange(env.prog)
  {
    if env.prog[i].opcode == 0 then []
    else if IsLocalCall(env.prog, i) then
      var loc := EntryLoc(env, CallTarget(env.prog, i));
      LocalCallCode(if loc < 0 then 0 else loc)
    else if Decode(env.prog[i].opcode).Exit? then [Release, Ret]
    else [Body(i)]
  }

  /** The code of the first `n` slots: a call that makes the program look like a function, the stub it returns to, then the slots in order. */
  function Code(env: Env, n: nat): seq<HostInst>
    requires n <= |env.prog| <= 65535 && CallsInRange(env.prog)
  {
    if n == 0 then [CallTo(SETUP), Leave]
    else Code(env, n - 1) + Prefix(env, n - 1) + Own(env, n - 1)
  }

  lemma {:induction false} CodeLength(env: Env, n: nat)
    requires n <= |env.prog| <= 65535 && CallsInRange(env.prog)
    ensures |Code(env, n)| == Offset(env, n)
  {
    hide Prefix, Own, PrefixLength, OwnLength;
    if n > 0 {
      CodeLength(env, n - 1);
      PartLengths(env, n - 1);
    }
  }

  /** Slot `i`'s code is found at its offset. */
  lemma {:induction false} CodeAt(env: Env, n: nat, i: nat)
    requires i < n <= |env.prog| <= 65535 && CallsInRange(env.prog)
    ensures Offset(env, i + 1) <= |Code(env, n)|
    ensures Code(env, n)[Offset(env, i)..PcLoc(env, i)] == Prefix(env, i)
    ensures Code(env, n)[PcLoc(env, i)..Offset(env, i + 1)] == Own(env, i)
  {
    hide Prefix, Own, Decode, HasBypass, IsEntry;
    PartLengths(env, i);
    CodeLength(env, n);
    CodeLength(env, n - 1);
    if i < n - 1 {
      CodeAt(env, n - 1, i);
    } else {
      var c, p, o := Code(env, i), Prefix(env, i), Own(env, i);
      assert (c + p + o)[|c|..|c| + |p|] == p && (c + p + o)[|c| + |p|..|c| + |p| + |o|] == o;
    }
  }

  lemma PartLengths(env: Env, i: nat)
    requires i < |env.prog| <= 65535 && CallsInRange(env.prog)
    ensures |Prefix(env, i)| == PrefixLength(env, i) && |Own(env, i)| == OwnLength(env, i)
  {
    hide Decode;
  }

  // ---------------------------------------------------------------- execution

  /** The registers and memory as an interpreter state about to execute the instruction in slot `i`. */
  function View(i: u16, regs: Regs, mem: Memory): State
  {
    State(ToU16(i + 1), regs, seq(MAX_CALL_DEPTH, _ => Frame(0, 0, 0, 0, 0, 0)), 0, 0, mem)
  }

  /** Whether the code of slot `i` ends in a taken jump. */
  predicate JumpsAway(env: Env, i: nat, regs: Regs)
    requires i < |env.prog|
  {
    var inst := env.prog[i];
    match Decode(inst.opcode)
    case Ja => true
    case Ja32 => true
    case Jcc(wide, cond, fromReg) => Taken(wide, cond, regs[inst.dst], Operand(fromReg, inst, regs))
    case _ => false
  }

  /**
    The code of an ordinary instruction has the interpreter's effect on registers and memory, then falls
    through or jumps to the recorded location of its target; an unwinding helper call leaves the program.
    */
  function DoBody(env: Env, i: nat, h: Host): Option<Host>
    requires i < |env.prog| <= 65535
  {
    match Legacy.Execute(env, View(i, h.regs, h.mem), env.prog[i])
    case Next(t) =>
      if !JumpsAway(env, i, h.regs) then Some(h.(ip := h.ip + 1, regs := t.regs, mem := t.mem))
      else if t.pc < |env.prog| then Some(h.(ip := PcLoc(env, t.pc), regs := t.regs, mem := t.mem))
      else None
    case Done(v, mem) => Some(h.(ip := EXIT_STUB, regs := h.regs[0 := v], stack := [], mem := mem))
    case Fail(_) => None
  }

  function Top(h: Host): Slot { if h.stack == [] then Garbage else h.stack[|h.stack| - 1] }

  function Pushed(h: Host, w: Slot): Host { h.(stack := h.stack + [w]) }

  function Popped(h: Host): Host
    requires h.stack != []
  {
    h.(stack := h.stack[..|h.stack| - 1])
  }

  /** One host instruction; nothing when it would use a stack word that is not what the code expects. */
  function Do(env: Env, i: HostInst, h: Host): Option<Host>
    requires |env.prog| <= 65535
  {
    var next := h.(ip := h.ip + 1);
    match i
    case Body(slot) => if slot < |env.prog| then DoBody(env, slot, h) else None
    case SubTop => if Top(h).Num? then Some(next.(regs := h.regs[10 := ToU64(h.regs[10] - Top(h).v)])) else None
    case AddTop => if Top(h).Num? then Some(next.(regs := h.regs[10 := ToU64(h.regs[10] + Top(h).v)])) else None
    case PushReg(r) => Some(Pushed(next, Num(h.regs[r])))
    case PopReg(r) => if Top(h).Num? then Some(Popped(next).(regs := h.regs[r := Top(h).v])) else None
    case CallTo(target) => Some(Pushed(h, Address(h.ip + 1)).(ip := target))
    case Ret => if Top(h).Address? then Some(Popped(h).(ip := Top(h).ip)) else None
    case Reserve => Some(Pushed(next, Garbage))
    case StoreTop(u) => if h.stack == [] then None else Some(Pushed(Popped(next), Num(u)))
    case Release => if h.stack == [] then None else Some(Popped(next))
    case JumpTo(target) => Some(h.(ip := target))
    case Leave => None
  }

  function HostStep(env: Env, h: Host): Option<Host>
    requires |env.prog| <= 65535 && CallsInRange(env.prog)
  {
    var code := Code(env, |env.prog|);
    if h.ip >= |code| then None else Do(env, code[h.ip], h)
  }

  function HostRun(env: Env, h: Host, n: nat): Option<Host>
    requires |env.prog| <= 65535 && CallsInRange(env.prog)
  {
    if n == 0 then Some(h)
    else match HostRun(env, h, n - 1) case None => None case Some(t) => HostStep(env, t)
  }

  lemma {:induction false} HostRunRuns(env: Env, h: Host, n: nat, m: nat)
    requires |env.prog| <= 65535 && CallsInRange(env.prog) && HostRun(env, h, n).Some?
    ensures HostRun(env, h, n + m) == HostRun(env, HostRun(env, h, n).value, m)
  {
    hide HostStep;
    if m > 0 {
      HostRunRuns(env, h, n, m - 1);
    }
  }
}
