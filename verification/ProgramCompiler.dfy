/** `ubpf_compile` for both hosts: a loaded program, its code or a report that the buffer or a table is too small. */
module ProgramCompiler {
  import opened Words
  import opened Isa
  import opened Machine
  import opened ControlFlow
  import JitEmission
  import JitPlan
  import JitCompiler
  import JitProgram
  import ArmEmission
  import ArmCompiler
  import ArmProgram

  /** What the laws of compiled x86-64 code are about is what the translator leaves in its buffer. */
  method CompileX86(env: Env, code: nat -> seq<u8>, jump: nat -> seq<u8>, setup: seq<JitProgram.JOp>, tail: JitPlan.Tail, size: nat)
    returns (state: JitCompiler.JitState, ok: bool, inside: bool)
    requires Loaded(env) && JitPlan.OpsOk(setup) && JitPlan.TailOk(tail) && size + 2 * JitEmission.PROLOGUE_SIZE < 0x8000_0000
    ensures |env.prog| <= 65535 && fresh(state) && state.buf.Length == size
    ensures ok <==> JitPlan.RoomFor(JitPlan.Body(JitProgram.Start(), setup, JitProgram.PlanOf(env, code, jump)), size)
    ensures JitPlan.RoomFor(JitPlan.Planned(JitProgram.Start(), setup, JitProgram.PlanOf(env, code, jump), tail), size) ==>
              && ok && inside
              && (CallsHitFirstSlots(env.prog) ==>
                    JitProgram.Compiled(env, code, jump, setup, tail, state.buf[..], state.entries))
  {
    hide JitPlan.PlanOk, JitPlan.OpsOk, JitPlan.TailOk, JitPlan.RoomFor, JitPlan.Body, JitPlan.AfterTail, JitProgram.PlanOf, Loaded,
         JitEmission.Linked, JitPlan.Holds, JitPlan.EntriesFollow, JitPlan.BypassesFollow;
    JitProgram.PlanOfOk(env, code, jump);
    state := new JitCompiler.JitState(size);
    ok, inside := state.Compile(setup, JitProgram.PlanOf(env, code, jump), tail);
  }

  /** The same for ARM64. */
  method CompileArm(env: Env, code: nat -> seq<ArmProgram.AOp>, blind: nat -> (Option<u64>, Option<u64>), setup: seq<ArmProgram.AOp>,
                    tail: ArmEmission.Tail, size: nat)
    returns (state: ArmCompiler.ArmState, ok: bool, inside: bool)
    requires Loaded(env) && ArmProgram.CodeOk(code) && ArmEmission.OpsOk(setup) && ArmEmission.StaysInside(setup) && ArmCompiler.TailOk(tail)
    requires |setup| <= 1000
    ensures |env.prog| <= 65535 && fresh(state) && state.code.Length == size
    ensures ok <==> ArmEmission.RoomFor(ArmEmission.Body(ArmEmission.Start(), setup, ArmProgram.PlanOf(env, code, blind)), size)
    ensures ArmEmission.RoomFor(ArmEmission.Planned(ArmEmission.Start(), setup, ArmProgram.PlanOf(env, code, blind), tail), size) && inside ==>
              ok && ArmProgram.CompiledProgram(env, code, blind, setup, tail, state.code[..])
  {
    hide ArmEmission.PlanOk, ArmEmission.OpsOk, ArmEmission.StaysInside, ArmEmission.Body, ArmEmission.AfterTail, ArmProgram.PlanOf, Loaded,
         ArmProgram.CodeOk;
    ArmProgram.PlanOfOk(env, code, blind);
    state := new ArmCompiler.ArmState(size);
    ok, inside := state.Compile(setup, ArmProgram.PlanOf(env, code, blind), tail);
  }
}
