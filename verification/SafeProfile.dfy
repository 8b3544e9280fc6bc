/** What loading and registration give to safe-profile runs. */
module SafeProfile {
  import opened Semantics
  import opened Machine
  import opened Safe
  import opened SafeInvariant
  import opened Spill
  import opened PointerWindows
  import opened Erasure
  import opened ControlFlow
  import opened FrameLaw
  import opened SafeRegistry
  import Legacy

  /** The environment runs an accepted program and its regions come from a registry. */
  ghost predicate Prepared(env: Env) { Loaded(env) && TableOk(env.regions) }

  /** Every pointer held anywhere in a reachable state of an accepted program is inside its window. */
  lemma AcceptedWindows(env: Env, regs: Regs, mem: Memory, n: nat)
    requires Prepared(env) && StackIsolated(env) && HelpersKeepStack(env)
    ensures var o := SafeRun(env, SafeInitial(env, regs, mem), n); o.Next? ==> WindowInv(env, o.state)
  {
    hide Loaded, TableOk, StackIsolated, HelpersKeepStack, WindowInv, SafeRun, SafeInitial, KeepsR10, NoReservedIds;
    AcceptedKeepsR10(env);
    TableHasNoReservedIds(env.regions);
    ReachableWindows(env, regs, mem, n);
  }

  /**
    Through the erasure, safe-profile runs inherit the control-flow and frame laws of the legacy interpreter:
    the counter stays on first slots, and r10 is the stack top minus the live frames' usages.
    */
  lemma SafeRunsInherit(env: Env, regs: Regs, mem: Memory, n: nat)
    requires Prepared(env) && CallbackAcceptsRegions(env) && NoFetchIntoR10(env.prog)
    ensures var o := SafeRun(env, SafeInitial(env, regs, mem), n);
      o.Next? ==> PcInv(env, o.state.core) && FrameInv(env, o.state.core)
  {
    hide Loaded, TableOk, CallbackAcceptsRegions, NoFetchIntoR10, SafeRun, SafeInitial, PcInv, FrameInv, NoReservedIds, Legacy.Run, Initial;
    TableHasNoReservedIds(env.regions);
    RunErases(env, regs, mem, n);
    ReachablePc(env, regs, mem, n);
    ReachableFrames(env, regs, mem, n);
  }
}
