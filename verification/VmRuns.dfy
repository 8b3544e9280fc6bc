/** From the API to the interpreters: what a run of loaded code works on. */
module VmRuns {
  import opened Words
  import opened Isa
  import opened Machine
  import opened SubPrograms
  import opened Validator
  import opened CodeStore
  import ControlFlow

  /**
    Load a program and set up its run: the instructions as `ubpf_fetch_instruction` gives them, the function entries as
    they are marked, the helpers as they are registered. If the load succeeds then what runs is the accepted program
    with exactly its local-call targets as entries, so every law of accepted programs applies to its runs.
    */
  method LoadForRun(vm: Vm, prog: seq<Inst>, length: nat, at: u64, env: Env) returns (ok: bool, r: Env)
    requires vm.Valid() && |prog| == length / 8
    modifies vm, vm.usage
    ensures vm.Valid()
    ensures ok <==> old(vm.base) == 0 && length % 8 == 0 && at != 0 && Accepts(old(vm.CallableFn()), old(vm.UsageFn()), prog)
    ensures ok ==> ControlFlow.Loaded(r) && r.prog == prog && r.callable == old(vm.CallableFn())
    ensures ok ==> forall p: u16 :: r.usage(p) == Answer(vm.usage[..], vm.calculator, p)
    ensures ok ==> r == env.(prog := r.prog, funcs := r.funcs, callable := r.callable, usage := r.usage)
  {
    hide Accepts, Holds, UsagesKnown, Marks;
    var callable, usage := vm.CallableFn(), vm.UsageFn();
    r := env;
    ok := vm.Load(prog, length, at);
    if !ok {
      return;
    }
    AcceptedLength(callable, usage, prog);
    HoldsLength(vm.insts[..], vm.base, vm.secret, vm.source);
    AcceptedCalls(callable, usage, prog);
    var flags := vm.intFuncs[..];
    MarksAreTargets(flags, prog);
    var insts := FetchAll(vm);
    var funcs := set t | 0 <= t < |flags| && flags[t];
    r := env.(prog := insts, funcs := funcs, callable := callable, usage := usage);
  }

  /** Every instruction of the loaded code, fetched one by one. */
  method FetchAll(vm: Vm) returns (insts: seq<Inst>)
    requires vm.Valid() && vm.base != 0
    ensures insts == vm.source
  {
    hide Holds, UsagesKnown, Marks;
    HoldsLength(vm.insts[..], vm.base, vm.secret, vm.source);
    insts := [];
    while |insts| < vm.insts.Length
      invariant |insts| <= vm.insts.Length == |vm.source| && insts == vm.source[..|insts|]
    {
      var inst := vm.Fetch(|insts|);
      insts := insts + [inst];
    }
  }

  lemma AcceptedCalls(callable: int -> bool, usage: u16 -> u16, prog: seq<Inst>)
    requires Accepts(callable, usage, prog)
    ensures CallsInRange(prog)
  {
    hide InstOk, SelfContained;
    forall i | 0 <= i < |prog| && IsLocalCall(prog, i)
      ensures 0 <= CallTarget(prog, i) < |prog|
    {
      FirstSlots(callable, usage, prog, 0, i);
      CallChecked(callable, usage, prog, i);
    }
  }

  lemma CallChecked(callable: int -> bool, usage: u16 -> u16, prog: seq<Inst>, i: nat)
    requires i < |prog| < MAX_INSTS && InstOk(callable, usage, prog, i) && IsLocalCall(prog, i)
    ensures 0 <= CallTarget(prog, i) < |prog|
  {
    ControlFlow.LocalCallDecodes(prog, i);
    hide Decode, FieldsOk;
  }
}
