/** Loading, storing and fetching code: the stored words are masked, and fetching undoes the mask. */
module CodeStore {
  import opened Words
  import opened Isa
  import opened SubPrograms
  import opened Validator

  // ---------------------------------------------------------------- instructions as 64-bit words

  /** The eight bytes of an instruction as one little-endian word. */
  function WordOf(inst: Inst): u64
  {
    inst.opcode + 0x100 * (inst.dst + 16 * inst.src) + 0x1_0000 * ToU16(inst.offset) + 0x1_0000_0000 * ToU32(inst.imm)
  }

  function InstOf(w: u64): Inst
  {
    Inst(w % 0x100, w / 0x100 % 16, w / 0x1000 % 16, Signed16(w / 0x1_0000 % 0x1_0000), Signed32(w / 0x1_0000_0000))
  }

  lemma InstOfWordOf(inst: Inst)
    ensures InstOf(WordOf(inst)) == inst
  {
    WordParts(inst.opcode, inst.dst, inst.src, ToU16(inst.offset), ToU32(inst.imm));
    SignedAgain(inst);
    hide ToU16, ToU32, Signed16, Signed32;
  }

  lemma SignedAgain(inst: Inst)
    ensures Signed16(ToU16(inst.offset)) == inst.offset && Signed32(ToU32(inst.imm)) == inst.imm
  {
  }

  lemma WordParts(c: int, d: int, s: int, o: int, m: int)
    requires 0 <= c < 0x100 && 0 <= d < 16 && 0 <= s < 16 && 0 <= o < 0x1_0000 && 0 <= m < 0x1_0000_0000
    ensures var w := c + 0x100 * (d + 16 * s) + 0x1_0000 * o + 0x1_0000_0000 * m;
      w % 0x100 == c && w / 0x100 % 16 == d && w / 0x1000 % 16 == s && w / 0x1_0000 % 0x1_0000 == o && w / 0x1_0000_0000 == m
  {
    var w := c + 0x100 * (d + 16 * s) + 0x1_0000 * o + 0x1_0000_0000 * m;
    var high := o + 0x1_0000 * m;
    ModUnique(w, 0x100, d + 16 * (s + 16 * high), c);
    ModUnique(d + 16 * (s + 16 * high), 16, s + 16 * high, d);
    ModUnique(w, 0x1000, s + 16 * high, c + 0x100 * d);
    ModUnique(s + 16 * high, 16, high, s);
    ModUnique(w, 0x1_0000, high, c + 0x100 * (d + 16 * s));
    ModUnique(high, 0x1_0000, m, o);
    ModUnique(w, 0x1_0000_0000, m, c + 0x100 * (d + 16 * s) + 0x1_0000 * o);
  }

  function Masked(w: u64, base: u64, secret: u64): u64 { Bitwise64(Xor, Bitwise64(Xor, w, base), secret) }

  /** XOR with two masks, in either order, twice. */
  lemma {:induction false} XorFour(n: nat, w: nat, b: nat, s: nat)
    requires w < Pow2(n)
    ensures Bits(Xor, n, Bits(Xor, n, Bits(Xor, n, Bits(Xor, n, w, b), s), b), s) == w
  {
    if n > 0 {
      XorFour(n - 1, w / 2, b / 2, s / 2);
      XorDigit(n, w, b);
      XorDigit(n, Bits(Xor, n, w, b), s);
      XorDigit(n, Bits(Xor, n, Bits(Xor, n, w, b), s), b);
      XorDigit(n, Bits(Xor, n, Bits(Xor, n, Bits(Xor, n, w, b), s), b), s);
    }
  }

  lemma XorDigit(n: nat, a: nat, b: nat)
    requires n > 0
    ensures Bits(Xor, n, a, b) % 2 == Bit(Xor, a % 2, b % 2) && Bits(Xor, n, a, b) / 2 == Bits(Xor, n - 1, a / 2, b / 2)
  {
    HalfOfDigit(Bit(Xor, a % 2, b % 2), Bits(Xor, n - 1, a / 2, b / 2));
  }

  /** Fetching undoes the mask of storing. */
  lemma FetchStored(inst: Inst, base: u64, secret: u64)
    ensures InstOf(Masked(Masked(WordOf(inst), base, secret), base, secret)) == inst
  {
    Pow2Widths();
    hide Bits, Pow2, WordOf, InstOf;
    XorFour(64, WordOf(inst), base, secret);
    InstOfWordOf(inst);
  }

  // ---------------------------------------------------------------- stack usage of local functions

  datatype UsageEntry = UnknownUsage | DefaultUsage | CustomUsage(usage: u16)

  function Value(e: UsageEntry): u16 { if e.CustomUsage? then e.usage else LOCAL_FUNCTION_STACK_SIZE }

  /** What the table answers for a function, computing it on the first question. */
  function Answer(table: seq<UsageEntry>, calculator: Option<u16 -> u16>, pc: u16): u16
    requires |table| == MAX_INSTS
  {
    if !table[pc].UnknownUsage? then Value(table[pc])
    else match calculator case None => LOCAL_FUNCTION_STACK_SIZE case Some(f) => f(pc)
  }

  /** Filling in an entry on first use does not change any answer. */
  lemma AnswerKept(table: seq<UsageEntry>, calculator: Option<u16 -> u16>, pc: u16, e: UsageEntry)
    requires |table| == MAX_INSTS && table[pc].UnknownUsage? && !e.UnknownUsage?
    requires Value(e) == Answer(table, calculator, pc)
    ensures forall p: u16 :: Answer(table[pc := e], calculator, p) == Answer(table, calculator, p)
  {
  }

  // ---------------------------------------------------------------- the virtual machine's code

  /** Function entries have known usages that are multiples of 16. */
  predicate UsagesKnown(table: seq<UsageEntry>, prog: seq<Inst>)
    requires |table| == MAX_INSTS
  {
    forall pc: u16 :: pc == 0 || pc in LocalTargets(prog) ==> !table[pc].UnknownUsage? && Value(table[pc]) % 16 == 0
  }

  /** The stored words are those of `prog`, masked. */
  ghost predicate Holds(words: seq<u64>, base: u64, secret: u64, prog: seq<Inst>)
  {
    |words| == |prog| && forall i :: 0 <= i < |prog| ==> words[i] == Masked(WordOf(prog[i]), base, secret)
  }

  ghost predicate Marks(flags: seq<bool>, prog: seq<Inst>, n: nat)
    requires n <= |prog|
  {
    |flags| == |prog| && forall t :: 0 <= t < |prog| ==> (flags[t] <==> t in Targets(prog, n))
  }

  lemma NoSecondCall(callable: int -> bool, usage: u16 -> u16, prog: seq<Inst>, i: nat)
    requires i < |prog| < MAX_INSTS && InstOk(callable, usage, prog, i)
    ensures forall k :: i < k < i + Width(prog[i]) ==> !IsLocalCall(prog, k)
  {
    KnownOpcode(callable, usage, prog, i);
  }

  /** An accepted program's entries have aligned usages, once they are all filled in. */
  lemma UsagesFilledIn(table: seq<UsageEntry>, calculator: Option<u16 -> u16>, callable: int -> bool, u: u16 -> u16, prog: seq<Inst>)
    requires |table| == MAX_INSTS && Accepts(callable, u, prog) && forall p: u16 :: Answer(table, calculator, p) == u(p)
    requires !table[0].UnknownUsage?
    requires forall k :: 0 <= k < |prog| && IsLocalCall(prog, k) ==>
               0 <= CallTarget(prog, k) < |prog| && !table[CallTarget(prog, k)].UnknownUsage?
    ensures UsagesKnown(table, prog)
  {
    forall pc: u16 | pc == 0 || pc in LocalTargets(prog)
      ensures !table[pc].UnknownUsage? && Value(table[pc]) % 16 == 0
    {
      assert Answer(table, calculator, pc) == u(pc);
      if pc in LocalTargets(prog) {
        var k := TargetOf(prog, |prog|, pc);
        CallAligned(callable, u, prog, k);
      }
    }
  }

  lemma CallAligned(callable: int -> bool, u: u16 -> u16, prog: seq<Inst>, k: nat)
    requires Accepts(callable, u, prog) && k < |prog| && IsLocalCall(prog, k)
    ensures 0 <= CallTarget(prog, k) < |prog| && u(CallTarget(prog, k)) % 16 == 0
  {
    FirstSlots(callable, u, prog, 0, k);
    assert Decode(0x85).Call?;
    hide Decode, SelfContained, Walk;
  }

  class Vm {
    var base: u64                          // where the code is stored; 0 while no code is loaded
    var secret: u64
    var insts: array<u64>
    var intFuncs: array<bool>
    var usage: array<UsageEntry>
    var calculator: Option<u16 -> u16>
    var registered: seq<bool>              // which helper indices have a function
    var dispatcher: Option<int -> bool>
    ghost var source: seq<Inst>            // the program that was loaded

    ghost predicate Valid()
      reads this, insts, intFuncs, usage
    {
      && usage.Length == MAX_INSTS && |registered| == MAX_EXT_FUNCS
      && (base != 0 ==>
            && |source| < MAX_INSTS && Holds(insts[..], base, secret, source)
            && Marks(intFuncs[..], source, |source|) && UsagesKnown(usage[..], source))
    }

    ghost predicate Loaded(prog: seq<Inst>)
      reads this
    {
      base != 0 && source == prog
    }

    constructor ()
      ensures Valid() && base == 0 && secret == 0 && calculator.None? && dispatcher.None?
      ensures fresh(insts) && fresh(intFuncs) && fresh(usage)
    {
      base, secret, calculator, dispatcher, source := 0, 0, None, None, [];
      insts := new u64[0];
      intFuncs := new bool[0];
      usage := new UsageEntry[MAX_INSTS](_ => UnknownUsage);
      registered := seq(MAX_EXT_FUNCS, _ => false);
    }

    /** `ubpf_fetch_instruction`: at every slot, the instruction that was loaded there. */
    method Fetch(pc: u16) returns (inst: Inst)
      requires Valid() && base != 0 && pc < insts.Length
      ensures pc < |source| && inst == source[pc]
    {
      FetchStored(source[pc], base, secret);
      hide Masked;
      assert insts[pc] == insts[..][pc];
      inst := InstOf(Masked(insts[pc], base, secret));
    }

    /** `ubpf_stack_usage_for_local_func`, asked at a function entry of loaded code: its assertion holds. */
    method StackUsage(pc: u16) returns (size: u16)
      requires Valid() && base != 0 && (pc == 0 || (pc < intFuncs.Length && intFuncs[pc]))
      ensures size % 16 == 0 && size == Answer(usage[..], calculator, pc)
      ensures size == if usage[pc].CustomUsage? then usage[pc].usage else 256
    {
      assert pc < intFuncs.Length ==> intFuncs[..][pc] == intFuncs[pc];
      assert usage[pc] == usage[..][pc];
      assert !usage[pc].UnknownUsage?;
      size := LOCAL_FUNCTION_STACK_SIZE;
      if usage[pc].CustomUsage? {
        size := usage[pc].usage;
      }
    }

    /** `ubpf_set_pointer_secret`: refused while code is loaded. */
    method SetSecret(value: u64) returns (ok: bool)
      requires Valid()
      modifies this`secret
      ensures Valid() && ok == (base == 0) && secret == if ok then value else old(secret)
    {
      if base != 0 {
        return false;
      }
      secret := value;
      return true;
    }

    /** `ubpf_register`, as far as validation sees it. */
    method Register(idx: nat, present: bool) returns (ok: bool)
      requires Valid()
      modifies this`registered
      ensures Valid() && ok == (idx < 64)
      ensures registered == if ok then old(registered)[idx := present] else old(registered)
    {
      if idx >= MAX_EXT_FUNCS {
        return false;
      }
      registered := registered[idx := present];
      return true;
    }

    method RegisterDispatcher(validater: Option<int -> bool>)
      requires Valid()
      modifies this`dispatcher
      ensures Valid() && dispatcher == validater
    {
      dispatcher := validater;
    }

    method RegisterCalculator(f: Option<u16 -> u16>)
      requires Valid()
      modifies this`calculator
      ensures Valid() && calculator == f
    {
      calculator := f;
    }

    /** `ubpf_unload_code`: forget the code and all memoised usages. */
    method Unload()
      requires Valid()
      modifies this`base, this`insts, this`intFuncs, this`usage, this`source
      ensures Valid() && base == 0 && fresh(usage) && fresh(insts) && fresh(intFuncs)
      ensures forall pc: u16 :: usage[pc].UnknownUsage?
    {
      usage := new UsageEntry[MAX_INSTS](_ => UnknownUsage);
      base, source := 0, [];
      insts := new u64[0];
      intFuncs := new bool[0];
    }

    /** `ubpf_calculate_stack_usage_for_local_func`: fill in the entry on first use, then check its alignment. */
    method CalculateUsage(pc: u16) returns (ok: bool)
      requires Valid()
      modifies usage
      ensures Valid() && !usage[pc].UnknownUsage? && Value(usage[pc]) == Answer(old(usage[..]), calculator, pc)
      ensures ok == (Value(usage[pc]) % 16 == 0)
      ensures forall p: u16 :: p != pc || !old(usage[p]).UnknownUsage? ==> usage[p] == old(usage[p])
      ensures forall p: u16 :: Answer(usage[..], calculator, p) == old(Answer(usage[..], calculator, p))
    {
      ghost var was := usage[..];
      if usage[pc].UnknownUsage? {
        usage[pc] := DefaultUsage;
        if calculator.Some? {
          usage[pc] := CustomUsage(calculator.value(pc));
        }
        assert usage[..] == was[pc := usage[pc]];
        AnswerKept(was, calculator, pc, usage[pc]);
      }
      assert usage[pc] == usage[..][pc];
      ok := Value(usage[pc]) % 16 == 0;
    }
  
    /** Whether a helper index may be called: the dispatcher decides if there is one, else the table of functions. */
    function CallableFn(): int -> bool
      reads this
      requires |registered| == MAX_EXT_FUNCS
    {
      var table, d := registered, dispatcher;
      (imm: int) => match d case Some(f) => f(imm) case None => 0 <= imm < MAX_EXT_FUNCS && |table| == MAX_EXT_FUNCS && table[imm]
    }

    function UsageFn(): u16 -> u16
      reads this, usage
      requires usage.Length == MAX_INSTS
    {
      var table, c := usage[..], calculator;
      (pc: u16) => if |table| == MAX_INSTS then Answer(table, c, pc) else 0
    }

    /** `validate`, filling in stack usages along the walk. */
    method ValidateCode(prog: seq<Inst>) returns (ok: bool)
      requires Valid()
      modifies usage
      ensures Valid()
      ensures ok <==> Accepts(old(CallableFn()), old(UsageFn()), prog)
      ensures ok ==> CallsInRange(prog) && UsagesKnown(usage[..], prog)
      ensures forall p: u16 :: Answer(usage[..], calculator, p) == old(Answer(usage[..], calculator, p))
      ensures forall p: u16 :: !old(usage[p]).UnknownUsage? ==> usage[p] == old(usage[p])
    {
      hide InstOk, SelfContained, Width, Decode, UsagesKnown, Holds, Marks;
      var callable, u := CallableFn(), UsageFn();
      if |prog| >= MAX_INSTS {
        return false;
      }
      ok := CalculateUsage(0);
      if !ok {
        return;
      }
      var i := 0;
      while i < |prog|
        invariant 0 <= i <= |prog| && Valid() && !usage[0].UnknownUsage?
        invariant forall p: u16 :: Answer(usage[..], calculator, p) == u(p)
        invariant forall p: u16 :: !old(usage[p]).UnknownUsage? ==> usage[p] == old(usage[p])
        invariant Walk(callable, u, prog, 0) == Walk(callable, u, prog, i)
        invariant forall k :: 0 <= k < i && IsLocalCall(prog, k) ==> CallKnown(prog, k)
      {
        ghost var before := usage[..];
        if IsLocalCall(prog, i) && 0 <= CallTarget(prog, i) < |prog| {
          var _ := CalculateUsage(CallTarget(prog, i));
        }
        if !InstOk(callable, u, prog, i) {
          return false;
        }
        CallInRange(callable, u, prog, i);
        NoSecondCall(callable, u, prog, i);
        i := i + Width(prog[i]);
      }
      ok := CheckSelfContained(prog);
      if ok {
        UsagesFilledIn(usage[..], calculator, callable, u, prog);
      }
    }

    /** The target of the call in slot `k` is in range and its usage is filled in. */
    ghost predicate CallKnown(prog: seq<Inst>, k: nat)
      reads this, usage
      requires k < |prog| < MAX_INSTS && usage.Length == MAX_INSTS
    {
      0 <= CallTarget(prog, k) < |prog| && !usage[CallTarget(prog, k)].UnknownUsage?
    }
  
    /** The storing loop of `ubpf_load`: mark local-call targets and store every instruction masked. */
    method StoreCode(prog: seq<Inst>, at: u64) returns (words: array<u64>, flags: array<bool>)
      requires CallsInRange(prog)
      ensures fresh(words) && fresh(flags) && Holds(words[..], at, secret, prog) && Marks(flags[..], prog, |prog|)
    {
      hide Masked, WordOf;
      words := new u64[|prog|];
      flags := new bool[|prog|](_ => false);
      for i := 0 to |prog|
        invariant forall k :: 0 <= k < i ==> words[k] == Masked(WordOf(prog[k]), at, secret)
        invariant forall t :: 0 <= t < |prog| ==> (flags[t] <==> t in Targets(prog, i))
      {
        if prog[i].opcode == 0x85 && prog[i].src == 1 {
          assert IsLocalCall(prog, i);
          flags[i + prog[i].imm + 1] := true;
        }
        words[i] := Masked(WordOf(prog[i]), at, secret);
      }
    }

    /**
      `ubpf_load`, with the allocator's answer as a parameter (0 when it fails). It succeeds exactly when no code
      is loaded, the length is a multiple of 8, the validator accepts and memory is available; a failed load
      leaves whatever was loaded in place.
      */
    method Load(prog: seq<Inst>, length: nat, at: u64) returns (ok: bool)
      requires Valid() && |prog| == length / 8
      modifies this`base, this`insts, this`intFuncs, this`source, usage
      ensures Valid()
      ensures ok <==> old(base) == 0 && length % 8 == 0 && Accepts(old(CallableFn()), old(UsageFn()), prog) && at != 0
      ensures if ok then Loaded(prog) && base == at && fresh(insts) && fresh(intFuncs)
              else base == old(base) && source == old(source) && insts == old(insts) && intFuncs == old(intFuncs)
      ensures forall p: u16 :: Answer(usage[..], calculator, p) == old(Answer(usage[..], calculator, p))
    {
      hide Accepts, UsagesKnown, Holds, Marks;
      if base != 0 {
        return false;
      }
      if length % 8 != 0 {
        return false;
      }
      ok := ValidateCode(prog);
      if !ok {
        return;
      }
      AcceptedLength(CallableFn(), old(UsageFn()), prog);
      if at == 0 {
        return false;
      }
      insts, intFuncs := StoreCode(prog, at);
      base, source := at, prog;
    }
  }

  lemma AcceptedLength(callable: int -> bool, u: u16 -> u16, prog: seq<Inst>)
    requires Accepts(callable, u, prog)
    ensures |prog| < MAX_INSTS
  {
  }

  // ---------------------------------------------------------------- runs of API calls

  datatype ApiCall =
    | CallLoad(prog: seq<Inst>, length: nat, at: u64)
    | CallUnload
    | CallSetSecret(value: u64)
    | CallRegister(idx: nat, present: bool)
    | CallRegisterDispatcher(validater: Option<int -> bool>)
    | CallRegisterCalculator(f: Option<u16 -> u16>)
    | CallExec(pc: u16)

  predicate CallWellFormed(c: ApiCall) { c.CallLoad? ==> |c.prog| == c.length / 8 }

  method Perform(vm: Vm, c: ApiCall)
    requires vm.Valid() && CallWellFormed(c)
    modifies vm, vm.usage
    ensures vm.Valid() && (vm.usage == old(vm.usage) || fresh(vm.usage))
    ensures old(vm.base) != 0 && !c.CallUnload? ==> vm.base == old(vm.base) && vm.source == old(vm.source)
  {
    match c
    case CallLoad(prog, length, at) => var _ := vm.Load(prog, length, at);
    case CallUnload => vm.Unload();
    case CallSetSecret(value) => var _ := vm.SetSecret(value);
    case CallRegister(idx, present) => var _ := vm.Register(idx, present);
    case CallRegisterDispatcher(v) => vm.RegisterDispatcher(v);
    case CallRegisterCalculator(f) => vm.RegisterCalculator(f);
    case CallExec(pc) =>
      if vm.base != 0 && pc < vm.insts.Length {
        var _ := vm.Fetch(pc);
        if pc == 0 || (pc < vm.intFuncs.Length && vm.intFuncs[pc]) {
          var _ := vm.StackUsage(pc);
        }
      }
  }

  /**
    Whatever calls come between a successful load and the next unload, every fetch still gives the loaded
    instruction, the function marks are exactly the local-call targets, and every function entry's stack usage
    is known and a multiple of 16.
    */
  method PerformAll(vm: Vm, calls: seq<ApiCall>, pc: u16) returns (inst: Option<Inst>)
    requires vm.Valid() && vm.base != 0 && forall i :: 0 <= i < |calls| ==> CallWellFormed(calls[i]) && !calls[i].CallUnload?
    modifies vm, vm.usage
    ensures vm.Valid() && vm.source == old(vm.source)
    ensures inst == if pc < |vm.source| then Some(vm.source[pc]) else None
    ensures forall t :: 0 <= t < |vm.source| ==> t < vm.intFuncs.Length && (vm.intFuncs[t] <==> t in LocalTargets(vm.source))
    ensures UsagesKnown(vm.usage[..], vm.source)
  {
    hide Holds, UsagesKnown;
    for i := 0 to |calls|
      invariant vm.Valid() && vm.base != 0 && vm.source == old(vm.source)
      invariant vm.usage == old(vm.usage) || fresh(vm.usage)
    {
      Perform(vm, calls[i]);
    }
    HoldsLength(vm.insts[..], vm.base, vm.secret, vm.source);
    if pc < vm.insts.Length {
      var x := vm.Fetch(pc);
      inst := Some(x);
    } else {
      inst := None;
    }
    assert forall t :: 0 <= t < vm.intFuncs.Length ==> vm.intFuncs[..][t] == vm.intFuncs[t];
  }

  lemma HoldsLength(words: seq<u64>, base: u64, secret: u64, prog: seq<Inst>)
    requires Holds(words, base, secret, prog)
    ensures |words| == |prog|
  {
  }

  /** The marked slots of a loaded program are its local-call targets, all of them inside the program. */
  lemma MarksAreTargets(flags: seq<bool>, prog: seq<Inst>)
    requires Marks(flags, prog, |prog|) && CallsInRange(prog)
    ensures (set t | 0 <= t < |flags| && flags[t]) == LocalTargets(prog)
  {
    forall t | t in LocalTargets(prog)
      ensures 0 <= t < |prog|
    {
      var k := TargetOf(prog, |prog|, t);
    }
  }
}
