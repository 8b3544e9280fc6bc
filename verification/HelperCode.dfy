/**
  Helper calls of compiled x86-64 code, run instruction by instruction from their bytes: which address the call goes to,
  with which arguments, and where the program goes on when it returns.
  */
module HelperCode {
  import opened Words
  import opened Isa
  import opened Machine
  import opened ControlFlow
  import opened Relocation
  import opened JitEmission
  import opened JitPlan
  import opened EmissionPlan
  import opened JitProgram
  import opened X86Bytes
  import HostCode

  // ---------------------------------------------------------------- the bytes

  /** The bytes of a helper call at `n` outside its fields. */
  ghost predicate HelperBytes(b: seq<u8>, n: nat, idx: u32)
  {
    var m := n + 58 + |LoadIndex(idx)|;
    && m + 9 <= |b|
    && BytesAt(b, n, [0x4c, 0x89, 0xd1, 0x41, 0x53, 0x41, 0x53])
    && BytesAt(b, n + 7, [0x48, 0x8b, 0x05])
    && BytesAt(b, n + 14, [0x48, 0x81, 0xf8, 0, 0, 0, 0])
    && BytesAt(b, n + 21, [0x0f, 0x85])
    && BytesAt(b, n + 27, [0xc7, 0xc0] + Bytes4(idx) + [0x48, 0xc1, 0xe0, 3])
    && BytesAt(b, n + 37, [0x4c, 0x8d, 0x15])
    && BytesAt(b, n + 44, [0x4c, 0x01, 0xd0, 0x48, 0x8b, 0x00, 0x4d, 0x89, 0xd9])
    && BytesAt(b, n + 53, [0xe9])
    && BytesAt(b, n + 58, LoadIndex(idx))
    && BytesAt(b, m, [0xe8])
    && BytesAt(b, m + 5, [0x41, 0x5b, 0x41, 0x5b])
  }

  /** Its fields. */
  ghost predicate HelperFields(t: Tables, b: seq<u8>, n: nat, idx: u32)
    requires n + 63 + |LoadIndex(idx)| <= |b|
  {
    var m := n + 58 + |LoadIndex(idx)|;
    && Lands(b, n + 10) == t.dispatcherLoc && Lands(b, n + 23) == n + 58
    && Lands(b, n + 40) == t.helperLoc && Lands(b, n + 54) == m && Lands(b, m + 1) == t.retpolineLoc
  }

  /** The retpoline at `r`, a call over a pause loop and then a return to what is in RAX. */
  ghost predicate RetpolineBytes(b: seq<u8>, r: nat)
  {
    && r + 17 <= |b| && b[r] == 0xe8 && BytesAt(b, r + 12, [0x48, 0x89, 0x04, 0x24, 0xc3]) && Lands(b, r + 1) == r + 12
  }

  // ---------------------------------------------------------------- running them

  /** The fourth argument in its register, and the context saved twice. */
  lemma SaveRuns(b: seq<u8>, o: u64, h: Host, idx: u32)
    requires h.ip >= 0 && HelperBytes(b, h.ip, idx)
    ensures Run(b, o, h, 3) ==
            In(h.(ip := h.ip + 7, regs := h.regs[RCX := h.regs[R10]], stack := h.stack + [h.regs[R11]] + [h.regs[R11]]))
  {
    hide DecodeInsn, Run, LoadIndex;
    var n, c := h.ip, h.regs[R11];
    SaveDecodes(b, n, idx);
    hide HelperBytes;
    var h1 := h.(ip := n + 3, regs := h.regs[RCX := h.regs[R10]]);
    var h2 := h1.(ip := n + 5, stack := h.stack + [c]);
    RunNone(b, o, h);
    RunNext(b, o, h, 0, h, Decoded(MovReg(RCX, R10), n + 3));
    RunNext(b, o, h, 1, h1, Decoded(Push(R11), n + 5));
    RunNext(b, o, h, 2, h2, Decoded(Push(R11), n + 7));
  }

  /** The dispatcher's address, tested. */
  lemma ChooseRuns(b: seq<u8>, o: u64, h: Host, n: nat, idx: u32, d: u64)
    requires h.ip == n + 7 && HelperBytes(b, n, idx)
    requires Lands(b, n + 23) == n + 58 && WordAt(b, Lands(b, n + 10)) == Some(d)
    ensures Run(b, o, h, 3) ==
            In(h.(ip := if d == 0 then n + 27 else n + 58, regs := h.regs[RAX := d], zero := d == 0))
  {
    hide DecodeInsn, Lands, WordAt, Run, LoadIndex;
    ChooseDecodes(b, n, idx);
    hide HelperBytes;
    var h1 := h.(ip := n + 14, regs := h.regs[RAX := d]);
    var h2 := h1.(ip := n + 21, zero := d == 0);
    RunNone(b, o, h);
    RunNext(b, o, h, 0, h, Decoded(LoadAt(RAX, Lands(b, n + 10)), n + 14));
    RunNext(b, o, h, 1, h1, Decoded(AluImm(7, RAX, 0), n + 21));
    RunNext(b, o, h, 2, h2, Decoded(JumpIf(5, n + 58), n + 27));
  }

  lemma SaveDecodes(b: seq<u8>, n: nat, idx: u32)
    requires HelperBytes(b, n, idx)
    ensures DecodeInsn(b, n) == Some(Decoded(MovReg(RCX, R10), n + 3))
    ensures DecodeInsn(b, n + 3) == Some(Decoded(Push(R11), n + 5)) && DecodeInsn(b, n + 5) == Some(Decoded(Push(R11), n + 7))
  {
    hide DecodeInsn, Lands, BytesAt, Bytes4, LoadIndex;
    var save := [0x4c, 0x89, 0xd1, 0x41, 0x53, 0x41, 0x53];
    ThreeOf(b, n, save, 0, 0x4c, 0x89, 0xd1);
    TwoOf(b, n, save, 3, 0x41, 0x53);
    TwoOf(b, n, save, 5, 0x41, 0x53);
    MoveAt(b, n);
    PushAt(b, n + 3, R11);
    PushAt(b, n + 5, R11);
  }

  lemma ChooseDecodes(b: seq<u8>, n: nat, idx: u32)
    requires HelperBytes(b, n, idx) && Lands(b, n + 23) == n + 58
    ensures DecodeInsn(b, n + 7) == Some(Decoded(LoadAt(RAX, Lands(b, n + 10)), n + 14))
    ensures DecodeInsn(b, n + 14) == Some(Decoded(AluImm(7, RAX, 0), n + 21))
    ensures DecodeInsn(b, n + 21) == Some(Decoded(JumpIf(5, n + 58), n + 27))
  {
    hide DecodeInsn, Lands, BytesAt, Bytes4, LoadIndex;
    var test := [0x48, 0x81, 0xf8, 0, 0, 0, 0];
    ThreeOf(b, n + 14, test, 0, 0x48, 0x81, 0xf8);
    FourOf(b, n + 14, test, 3, 0, 0, 0, 0);
    RelativeAt(b, n + 7);
    AluImmAt(b, n + 14, 0xf8, 0);
    TwoBytes(b, n + 21, 0x0f, 0x85);
    BranchAt(b, n + 21);
  }

  /** The default arm scales the index, */
  lemma ScaleRuns(b: seq<u8>, o: u64, h: Host, n: nat, idx: u32)
    requires h.ip == n + 27 && HelperBytes(b, n, idx)
    ensures Run(b, o, h, 2) == In(h.(ip := n + 37, regs := h.regs[RAX := 8 * idx], zero := idx == 0))
  {
    hide DecodeInsn, Lands, Run, LoadIndex;
    AddressDecodes(b, n, idx);
    LowWord(idx);
    assert ToU64(idx * 8) == 8 * idx;
    hide HelperBytes, ToU64, ToU32, Signed32, Pow2;
    var h1 := h.(ip := n + 33, regs := h.regs[RAX := idx]);
    RunNone(b, o, h);
    RunNext(b, o, h, 0, h, Decoded(MovImm(false, RAX, Signed32(idx)), n + 33));
    RunNext(b, o, h, 1, h1, Decoded(ShiftLeft(RAX, 3), n + 37));
    assert h1.regs[RAX := 8 * idx] == h.regs[RAX := 8 * idx];
  }

  /** takes the address of that entry of the helper table, */
  lemma AddressRuns(b: seq<u8>, o: u64, h: Host, n: nat, idx: u32)
    requires h.ip == n + 37 && HelperBytes(b, n, idx) && h.regs[RAX] == 8 * idx
    requires Lands(b, n + 40) >= 0 && o + Lands(b, n + 40) + 8 * idx < 0x1_0000_0000_0000_0000
    ensures var table := Lands(b, n + 40); var at := o + table + 8 * idx;
      Run(b, o, h, 2) == In(Host(n + 47, h.regs[R10 := o + table][RAX := at], h.stack, at == 0))
  {
    hide DecodeInsn, Lands, Run, LoadIndex;
    var table := Lands(b, n + 40);
    AddressDecodes(b, n, idx);
    assert ToU64(o + table) == o + table && ToU64(8 * idx + (o + table)) == o + table + 8 * idx;
    hide HelperBytes, ToU64, ToU32, Signed32, Pow2;
    var h1 := h.(ip := n + 44, regs := h.regs[R10 := o + table]);
    RunNone(b, o, h);
    RunNext(b, o, h, 0, h, Decoded(AddressOf(R10, table), n + 44));
    RunNext(b, o, h, 1, h1, Decoded(AddReg(RAX, R10), n + 47));
  }

  /** fetches it and passes the context as sixth argument. */
  lemma FetchRuns(b: seq<u8>, o: u64, h: Host, n: nat, idx: u32, v: u64)
    requires h.ip == n + 47 && HelperBytes(b, n, idx) && WordAt(b, h.regs[RAX] - o) == Some(v)
    ensures Run(b, o, h, 3) == In(h.(ip := Lands(b, n + 54), regs := h.regs[RAX := v][R9 := h.regs[R11]]))
  {
    hide DecodeInsn, Lands, Run, LoadIndex, WordAt;
    FetchDecodes(b, n, idx);
    hide HelperBytes;
    var h1 := h.(ip := n + 50, regs := h.regs[RAX := v]);
    var h2 := h.(ip := n + 53, regs := h.regs[RAX := v][R9 := h.regs[R11]]);
    RunNone(b, o, h);
    RunNext(b, o, h, 0, h, Decoded(Load(RAX, RAX), n + 50));
    RunNext(b, o, h, 1, h1, Decoded(MovReg(R9, R11), n + 53));
    RunNext(b, o, h, 2, h2, Decoded(Jump(Lands(b, n + 54)), n + 58));
  }

  lemma LowWord(idx: u32)
    ensures ToU32(Signed32(idx)) == idx && Pow2(3) == 8 && (idx < 0x8000_0000 ==> ToU64(Signed32(idx)) == idx)
  {
    assert Pow2(0) == 1 && Pow2(1) == 2 && Pow2(2) == 4;
  }

  lemma AddressDecodes(b: seq<u8>, n: nat, idx: u32)
    requires HelperBytes(b, n, idx)
    ensures DecodeInsn(b, n + 27) == Some(Decoded(MovImm(false, RAX, Signed32(idx)), n + 33))
    ensures DecodeInsn(b, n + 33) == Some(Decoded(ShiftLeft(RAX, 3), n + 37))
    ensures DecodeInsn(b, n + 37) == Some(Decoded(AddressOf(R10, Lands(b, n + 40)), n + 44))
    ensures DecodeInsn(b, n + 44) == Some(Decoded(AddReg(RAX, R10), n + 47))
  {
    hide DecodeInsn, Lands, BytesAt, LoadIndex, Bytes4, Signed32;
    var index, fetch := [0xc7, 0xc0] + Bytes4(idx) + [0x48, 0xc1, 0xe0, 3], [0x4c, 0x01, 0xd0, 0x48, 0x8b, 0x00, 0x4d, 0x89, 0xd9];
    TwoOf(b, n + 27, index, 0, 0xc7, 0xc0);
    PartAt(b, n + 27, index, 2, Bytes4(idx));
    FourOf(b, n + 27, index, 6, 0x48, 0xc1, 0xe0, 3);
    ThreeOf(b, n + 44, fetch, 0, 0x4c, 0x01, 0xd0);
    LoadRaxAt(b, n + 27, idx);
    IndexAt(b, n + 33);
    RelativeAt(b, n + 37);
    IndexAt(b, n + 44);
  }

  lemma FetchDecodes(b: seq<u8>, n: nat, idx: u32)
    requires HelperBytes(b, n, idx)
    ensures DecodeInsn(b, n + 47) == Some(Decoded(Load(RAX, RAX), n + 50))
    ensures DecodeInsn(b, n + 50) == Some(Decoded(MovReg(R9, R11), n + 53))
    ensures DecodeInsn(b, n + 53) == Some(Decoded(Jump(Lands(b, n + 54)), n + 58))
  {
    hide DecodeInsn, Lands, BytesAt, LoadIndex, Bytes4;
    var fetch := [0x4c, 0x01, 0xd0, 0x48, 0x8b, 0x00, 0x4d, 0x89, 0xd9];
    ThreeOf(b, n + 44, fetch, 3, 0x48, 0x8b, 0x00);
    ThreeOf(b, n + 44, fetch, 6, 0x4d, 0x89, 0xd9);
    IndexAt(b, n + 47);
    MoveAt(b, n + 50);
    OneByte(b, n + 53, 0xe9);
    BranchAt(b, n + 53);
  }

  /** The external arm passes the index as sixth argument. */
  lemma ExternalArmRuns(b: seq<u8>, o: u64, h: Host, n: nat, idx: u32)
    requires h.ip == n + 58 && HelperBytes(b, n, idx)
    ensures Run(b, o, h, 1) == In(h.(ip := n + 58 + |LoadIndex(idx)|, regs := h.regs[R9 := idx]))
  {
    hide DecodeInsn, HelperBytes, LoadIndex, Run;
    LowWord(idx);
    ExternalDecodes(b, n, idx);
    hide ToU64, ToU32, Signed32, Pow2;
    RunNone(b, o, h);
    RunNext(b, o, h, 0, h, Decoded(if idx < 0x8000_0000 then MovImm(true, R9, Signed32(idx)) else MovAbs(R9, idx), n + 58 + |LoadIndex(idx)|));
  }

  lemma ExternalDecodes(b: seq<u8>, n: nat, idx: u32)
    requires HelperBytes(b, n, idx)
    ensures DecodeInsn(b, n + 58) ==
            Some(Decoded(if idx < 0x8000_0000 then MovImm(true, R9, Signed32(idx)) else MovAbs(R9, idx), n + 58 + |LoadIndex(idx)|))
  {
    hide DecodeInsn, BytesAt, Signed32, LoadIndex;
    IndexParts(b, n + 58, idx);
    LoadR9At(b, n + 58, idx);
  }

  lemma IndexParts(b: seq<u8>, p: nat, idx: u32)
    requires BytesAt(b, p, LoadIndex(idx))
    ensures idx < 0x8000_0000 ==> BytesAt(b, p, [0x49, 0xc7, 0xc1]) && BytesAt(b, p + 3, Bytes4(idx)) && |LoadIndex(idx)| == 7
    ensures idx >= 0x8000_0000 ==>
              BytesAt(b, p, [0x49, 0xb9]) && BytesAt(b, p + 2, Bytes4(idx)) && BytesAt(b, p + 6, [0, 0, 0, 0]) && |LoadIndex(idx)| == 10
  {
    hide BytesAt, Bytes4;
    if idx < 0x8000_0000 {
      ThreeOf(b, p, LoadIndex(idx), 0, 0x49, 0xc7, 0xc1);
      PartAt(b, p, LoadIndex(idx), 3, Bytes4(idx));
    } else {
      TwoOf(b, p, LoadIndex(idx), 0, 0x49, 0xb9);
      PartAt(b, p, LoadIndex(idx), 2, Bytes4(idx));
      FourOf(b, p, LoadIndex(idx), 6, 0, 0, 0, 0);
    }
  }

  /** The retpoline puts the address in RAX over its own return address and returns to it. */
  lemma RetpolineRuns(b: seq<u8>, o: u64, h: Host)
    requires h.ip >= 0 && RetpolineBytes(b, h.ip)
    ensures Run(b, o, h, 3) == Gone(h.regs[RAX], h.(ip := h.ip + 16))
  {
    hide DecodeInsn, Lands, BytesAt, Run;
    var r := h.ip;
    RetpolineDecodes(b, r);
    hide RetpolineBytes, ToU64;
    var s1, s2 := h.stack + [ToU64(o + r + 5)], h.stack + [h.regs[RAX]];
    RunNone(b, o, h);
    RunNext(b, o, h, 0, h, Decoded(Insn.Call(r + 12), r + 5));
    RunNext(b, o, h, 1, h.(ip := r + 12, stack := s1), Decoded(StoreTop(RAX), r + 16));
    assert s1[|s1| - 1 := h.regs[RAX]] == s2;
    RunNext(b, o, h, 2, h.(ip := r + 16, stack := s2), Decoded(Return, r + 17));
    assert s2[..|s2| - 1] == h.stack;
  }

  lemma RetpolineDecodes(b: seq<u8>, r: nat)
    requires RetpolineBytes(b, r)
    ensures DecodeInsn(b, r) == Some(Decoded(Insn.Call(r + 12), r + 5))
    ensures DecodeInsn(b, r + 12) == Some(Decoded(StoreTop(RAX), r + 16)) && DecodeInsn(b, r + 16) == Some(Decoded(Return, r + 17))
  {
    hide DecodeInsn, Lands, BytesAt;
    var back := [0x48, 0x89, 0x04, 0x24, 0xc3];
    FourOf(b, r + 12, back, 0, 0x48, 0x89, 0x04, 0x24);
    OneOf(b, r + 12, back, 4, 0xc3);
    BranchAt(b, r);
    StoreTopAt(b, r + 12);
    ReturnAt(b, r + 16);
  }

  /** The call through the retpoline goes to the address in RAX, returning behind the call. */
  lemma CallRuns(b: seq<u8>, o: u64, h: Host, r: nat)
    requires h.ip >= 0 && h.ip + 5 <= |b| && b[h.ip] == 0xe8 && Lands(b, h.ip + 1) == r && RetpolineBytes(b, r)
    ensures Run(b, o, h, 4) == Gone(h.regs[RAX], h.(ip := r + 16, stack := h.stack + [ToU64(o + h.ip + 5)]))
  {
    hide DecodeInsn, Lands, BytesAt, Run, RetpolineBytes;
    BranchAt(b, h.ip);
    RunNone(b, o, h);
    RunNext(b, o, h, 0, h, Decoded(Insn.Call(r), h.ip + 5));
    RetpolineRuns(b, o, Run(b, o, h, 1).h);
    RunRuns(b, o, h, 1, 3);
  }

  lemma RunNone(b: seq<u8>, o: u64, h: Host)
    ensures Run(b, o, h, 0) == In(h)
  {
  }

  // ---------------------------------------------------------------- the whole call

  /** Behind the choice of dispatcher, at the call: RAX holds the address and R9 the sixth argument. */
  lemma AtCall(b: seq<u8>, o: u64, h: Host, t: Tables, idx: u32, d: u64, v: u64)
    requires h.ip >= 0 && HelperBytes(b, h.ip, idx) && HelperFields(t, b, h.ip, idx) && o + |b| <= 0x1_0000_0000_0000_0000
    requires WordAt(b, t.dispatcherLoc) == Some(d) && (d == 0 ==> WordAt(b, t.helperLoc + 8 * idx) == Some(v))
    ensures var k := if d == 0 then 13 else 7;
      Run(b, o, h, k).In? && var u := Run(b, o, h, k).h;
      && u.ip == h.ip + 58 + |LoadIndex(idx)| && u.stack == h.stack + [h.regs[R11]] + [h.regs[R11]]
      && u.regs[RAX] == (if d == 0 then v else d) && u.regs[R9] == (if d == 0 then h.regs[R11] else idx)
      && u.regs[RCX] == h.regs[R10]
      && forall r: Reg :: r !in {RAX, RCX, R9, R10} ==> u.regs[r] == h.regs[r]
  {
    hide Run, HelperBytes, Lands, LoadIndex, Word4;
    SaveRuns(b, o, h, idx);
    ChooseRuns(b, o, Run(b, o, h, 3).h, h.ip, idx, d);
    RunRuns(b, o, h, 3, 3);
    if d == 0 {
      ScaleRuns(b, o, Run(b, o, h, 6).h, h.ip, idx);
      RunRuns(b, o, h, 6, 2);
      AddressRuns(b, o, Run(b, o, h, 8).h, h.ip, idx);
      RunRuns(b, o, h, 8, 2);
      FetchRuns(b, o, Run(b, o, h, 10).h, h.ip, idx, v);
      RunRuns(b, o, h, 10, 3);
    } else {
      ExternalArmRuns(b, o, Run(b, o, h, 6).h, h.ip, idx);
      RunRuns(b, o, h, 6, 1);
    }
  }

  /** Host registers that hold the same value. */
  predicate Keeps(h: Host, u: Host, rs: set<Reg>) { forall r: Reg :: r in rs ==> u.regs[r] == h.regs[r] }

  /**
    The helper `to` is called with the five arguments of the eBPF call, a sixth, and the context on the stack as the
    seventh; it returns behind the call.
    */
  predicate Calls(o: u64, h: Host, out: X86Bytes.Outcome, to: u64, sixth: u64, back: nat)
  {
    && out.Gone? && out.to == to
    && out.h.regs[RCX] == h.regs[R10] && out.h.regs[R9] == sixth
    && Keeps(h, out.h, {RDI, RSI, RDX, R8, RBX, RBP, R11, 12, 13, 14, 15})
    && out.h.stack == h.stack + [h.regs[R11], h.regs[R11], ToU64(o + back)]
  }

  /** From the first byte of a helper call to the helper. */
  lemma BytesCall(b: seq<u8>, o: u64, h: Host, t: Tables, idx: u32, d: u64, v: u64)
    requires h.ip >= 0 && HelperBytes(b, h.ip, idx) && HelperFields(t, b, h.ip, idx) && o + |b| <= 0x1_0000_0000_0000_0000
    requires WordAt(b, t.dispatcherLoc) == Some(d) && (d == 0 ==> WordAt(b, t.helperLoc + 8 * idx) == Some(v))
    requires RetpolineBytes(b, t.retpolineLoc)
    ensures Calls(o, h, Run(b, o, h, if d == 0 then 17 else 11), if d == 0 then v else d, if d == 0 then h.regs[R11] else idx,
                  h.ip + 63 + |LoadIndex(idx)|)
  {
    hide Run, WordAt, Lands, LoadIndex, RetpolineBytes, BytesAt;
    var k, m := if d == 0 then 13 else 7, h.ip + 58 + |LoadIndex(idx)|;
    AtCall(b, o, h, t, idx, d, v);
    OneByte(b, m, 0xe8);
    hide HelperBytes;
    var u := Run(b, o, h, k).h;
    CallRuns(b, o, u, t.retpolineLoc);
    RunRuns(b, o, h, k, 4);
    assert u.stack + [ToU64(o + m + 5)] == h.stack + [h.regs[R11], h.regs[R11], ToU64(o + m + 5)];
  }

  // ---------------------------------------------------------------- compiled programs

  function Word8(s: seq<u8>): u64
    requires |s| == 8
  {
    Word4(s[..4]) + 0x1_0000_0000 * Word4(s[4..])
  }

  lemma WordIs(b: seq<u8>, at: nat, s: seq<u8>, i: nat)
    requires i + 8 <= |s| && at + |s| <= |b| && b[at..at + |s|] == s
    ensures WordAt(b, at + i) == Some(Word8(s[i..i + 8]))
  {
    hide Word4;
    var w := s[i..i + 8];
    forall j | 0 <= j < 8
      ensures w[j] == b[at + i + j]
    {
      assert s[i + j] == b[at..at + |s|][i + j];
    }
    assert w[..4] == b[at + i..at + i + 4] && w[4..] == b[at + i + 4..at + i + 8];
  }

  function TablesOf(env: Env, code: nat -> seq<u8>, jump: nat -> seq<u8>, setup: seq<JOp>, tail: Tail): Tables
    requires |env.prog| <= 65535
  {
    Planned(Start(), setup, PlanOf(env, code, jump), tail).tables
  }

  /** The fixed bytes of a compiled helper call, and those of the test behind one that may unwind. */
  lemma HelperEmitted(env: Env, code: nat -> seq<u8>, jump: nat -> seq<u8>, setup: seq<JOp>, tail: Tail,
                      b: seq<u8>, entries: map<nat, u16>, i: nat)
    requires Compiled(env, code, jump, setup, tail, b, entries) && i < |env.prog| <= 65535 && IsHelperCall(env.prog[i])
    ensures var n, idx := SlotAt(env, code, jump, setup, i), ToU32(env.prog[i].imm); var m := n + 58 + |LoadIndex(idx)|;
      && HelperBytes(b, n, idx)
      && (env.prog[i].imm == env.unwind ==>
            m + 22 <= |b| && BytesAt(b, m + 9, [0x48, 0x81, 0xf8, 0, 0, 0, 0]) && BytesAt(b, m + 16, [0x0f, 0x84]))
  {
    hide Loaded, CallsHitFirstSlots, Linked, Holds, Planned, UpToStep, OpAt, StepsLength, LoadIndex, DefaultArm, BytesAt;
    var n, idx, unwinds := SlotAt(env, code, jump, setup, i), ToU32(env.prog[i].imm), env.prog[i].imm == env.unwind;
    var steps, m := HelperCall(idx, unwinds), n + 58 + |LoadIndex(idx)|;
    HelperCallLengths(idx, unwinds);
    MoreLengths(idx, unwinds);
    assert StepsOf(env, code, jump, i) == steps;
    OneEmitted(env, code, jump, setup, tail, b, entries, i, 0);
    OneEmitted(env, code, jump, setup, tail, b, entries, i, 1);
    OneEmitted(env, code, jump, setup, tail, b, entries, i, 2);
    ChoiceEmitted(env, code, jump, setup, tail, b, entries, i);
    OneEmitted(env, code, jump, setup, tail, b, entries, i, 4);
    OneEmitted(env, code, jump, setup, tail, b, entries, i, 5);
    if unwinds {
      OneEmitted(env, code, jump, setup, tail, b, entries, i, 6);
      OneEmitted(env, code, jump, setup, tail, b, entries, i, 7);
    }
  }

  lemma OneEmitted(env: Env, code: nat -> seq<u8>, jump: nat -> seq<u8>, setup: seq<JOp>, tail: Tail,
                   b: seq<u8>, entries: map<nat, u16>, i: nat, k: nat)
    requires Compiled(env, code, jump, setup, tail, b, entries) && i < |env.prog| <= 65535 && env.prog[i].opcode != 0
    requires var steps := StepsOf(env, code, jump, i); k < |steps| && steps[k].One?
    ensures var steps := StepsOf(env, code, jump, i); var at := SlotAt(env, code, jump, setup, i) + StepsLength(steps, k);
      at + OpLength(steps[k].op) <= |b| && BytesAt(b, at, FixedBytes(steps[k].op))
  {
    hide Compiled, SlotAt, StepsOf, StepsLength, OpAt, BytesAt;
    HostCode.StepAt(env, code, jump, setup, tail, b, entries, i, k);
    var steps := StepsOf(env, code, jump, i);
    HostCode.BytesThere(b, SlotAt(env, code, jump, setup, i) + StepsLength(steps, k), steps[k].op);
  }

  lemma MoreLengths(idx: u32, unwinds: bool)
    ensures var steps, m := HelperCall(idx, unwinds), 58 + |LoadIndex(idx)|;
      && StepsLength(steps, 0) == 0 && StepsLength(steps, 2) == 14 && StepsLength(steps, 5) == m + 5
      && (unwinds ==> StepsLength(steps, 6) == m + 9)
  {
    hide LoadIndex, DefaultArm, OpsLength;
    HelperCallLengths(idx, unwinds);
    var steps := HelperCall(idx, unwinds);
    assert StepsLength(steps, 0) == 0 && StepsLength(steps, 1) == 7;
    assert StepsLength(steps, 5) == StepsLength(steps, 4) + 5;
  }

  lemma ChoiceEmitted(env: Env, code: nat -> seq<u8>, jump: nat -> seq<u8>, setup: seq<JOp>, tail: Tail,
                      b: seq<u8>, entries: map<nat, u16>, i: nat)
    requires Compiled(env, code, jump, setup, tail, b, entries) && i < |env.prog| <= 65535 && IsHelperCall(env.prog[i])
    ensures var n, idx := SlotAt(env, code, jump, setup, i), ToU32(env.prog[i].imm);
      && n + 58 + |LoadIndex(idx)| <= |b|
      && BytesAt(b, n + 21, [0x0f, 0x85])
      && BytesAt(b, n + 27, [0xc7, 0xc0] + Bytes4(idx) + [0x48, 0xc1, 0xe0, 3])
      && BytesAt(b, n + 37, [0x4c, 0x8d, 0x15])
      && BytesAt(b, n + 44, [0x4c, 0x01, 0xd0, 0x48, 0x8b, 0x00, 0x4d, 0x89, 0xd9])
      && BytesAt(b, n + 53, [0xe9])
      && BytesAt(b, n + 58, LoadIndex(idx))
  {
    hide Loaded, CallsHitFirstSlots, Linked, Holds, Planned, UpToStep, OpAt, StepsLength, LoadIndex, BytesAt, OpsLength, Bytes4;
    var n, idx, unwinds := SlotAt(env, code, jump, setup, i), ToU32(env.prog[i].imm), env.prog[i].imm == env.unwind;
    var plan := PlanOf(env, code, jump);
    HelperCallLengths(idx, unwinds);
    PlanSlot(env, code, jump, i);
    hide PlanOf;
    var steps := HelperCall(idx, unwinds);
    assert plan[i].steps == steps && steps[3] == HelperCall(idx, false)[3];
    assert Inside(Start());
    StepLocated(Start(), setup, plan, i, 3);
    ChoiceAt(Start(), setup, plan, tail, i, 3, b);
    ChoiceBytes(b, n + 21, idx);
  }

  lemma ChoiceBytes(b: seq<u8>, n: nat, idx: u32)
    requires var s := HelperCall(idx, false)[3]; var l := SecondArm(n, s);
      && l + OpsLength(s.second) <= |b|
      && b[n..n + |s.skip|] == s.skip && b[l - 4 - |s.join|..l - 4] == s.join
      && (forall k :: 0 <= k < |s.first| ==> OpAt(b, n + |s.skip| + 4 + OpsLength(s.first[..k]), s.first[k]))
      && (forall k :: 0 <= k < |s.second| ==> OpAt(b, l + OpsLength(s.second[..k]), s.second[k]))
    ensures n + 37 + |LoadIndex(idx)| <= |b|
    ensures BytesAt(b, n, [0x0f, 0x85])
    ensures BytesAt(b, n + 6, [0xc7, 0xc0] + Bytes4(idx) + [0x48, 0xc1, 0xe0, 3])
    ensures BytesAt(b, n + 16, [0x4c, 0x8d, 0x15])
    ensures BytesAt(b, n + 23, [0x4c, 0x01, 0xd0, 0x48, 0x8b, 0x00, 0x4d, 0x89, 0xd9])
    ensures BytesAt(b, n + 32, [0xe9])
    ensures BytesAt(b, n + 37, LoadIndex(idx))
  {
    hide OpAt, LoadIndex, BytesAt, Bytes4;
    var s := HelperCall(idx, false)[3];
    DefaultArmLength(idx);
    ArmLengths(idx);
    hide OpsLength;
    BytesAre(b, n, [0x0f, 0x85]);
    BytesAre(b, n + 32, [0xe9]);
    assert OpAt(b, n + |s.skip| + 4 + OpsLength(s.first[..0]), s.first[0]);
    assert OpAt(b, n + |s.skip| + 4 + OpsLength(s.first[..1]), s.first[1]);
    assert OpAt(b, n + |s.skip| + 4 + OpsLength(s.first[..2]), s.first[2]);
    assert OpAt(b, SecondArm(n, s) + OpsLength(s.second[..0]), s.second[0]);
    HostCode.BytesThere(b, n + 6, s.first[0]);
    HostCode.BytesThere(b, n + 16, s.first[1]);
    HostCode.BytesThere(b, n + 23, s.first[2]);
    HostCode.BytesThere(b, n + 37, s.second[0]);
  }

  lemma ArmLengths(idx: u32)
    ensures var ops := DefaultArm(idx);
      OpsLength(ops[..0]) == 0 && OpsLength(ops[..1]) == 10 && OpsLength(ops[..2]) == 17
    ensures OpsLength([JOp.Raw(LoadIndex(idx))][..0]) == 0
  {
    var ops := DefaultArm(idx);
    assert ops[..2][..1] == ops[..1] && ops[..1][..0] == [];
    assert OpsLength(ops[..1]) == OpsLength([]) + OpLength(ops[0]) == 10;
    assert OpsLength(ops[..2]) == OpsLength(ops[..1]) + OpLength(ops[1]) == 17;
  }

  /** Its fields, and the one of the test. */
  lemma HelperLinked(env: Env, code: nat -> seq<u8>, jump: nat -> seq<u8>, setup: seq<JOp>, tail: Tail,
                     b: seq<u8>, entries: map<nat, u16>, i: nat)
    requires Compiled(env, code, jump, setup, tail, b, entries) && i < |env.prog| <= 65535 && IsHelperCall(env.prog[i])
    ensures var n, idx, t := SlotAt(env, code, jump, setup, i), ToU32(env.prog[i].imm), TablesOf(env, code, jump, setup, tail);
      var m := n + 58 + |LoadIndex(idx)|;
      && m + 5 <= |b| && HelperFields(t, b, n, idx)
      && (env.prog[i].imm == env.unwind ==> m + 22 <= |b| && Lands(b, m + 18) == t.exitLoc)
  {
    hide Loaded, CallsHitFirstSlots, Linked, Holds, Planned, UpToStep, LoadIndex, Lands, HelperCall;
    PlanSlot(env, code, jump, i);
    var plan := PlanOf(env, code, jump);
    hide PlanOf;
    HelperCallLands(Start(), setup, plan, tail, i, ToU32(env.prog[i].imm), env.prog[i].imm == env.unwind, b, entries);
  }

  /** The retpoline, the dispatcher's address and the helper table of a compiled program. */
  lemma TailEmitted(env: Env, code: nat -> seq<u8>, jump: nat -> seq<u8>, setup: seq<JOp>, tail: Tail,
                    b: seq<u8>, entries: map<nat, u16>)
    requires Compiled(env, code, jump, setup, tail, b, entries) && |env.prog| <= 65535
    ensures var t := TablesOf(env, code, jump, setup, tail);
      && RetpolineBytes(b, t.retpolineLoc)
      && t.dispatcherLoc + |tail.dispatcher| <= |b| && b[t.dispatcherLoc..t.dispatcherLoc + |tail.dispatcher|] == tail.dispatcher
      && t.helperLoc + |tail.helpers| <= |b| && b[t.helperLoc..t.helperLoc + |tail.helpers|] == tail.helpers
  {
    hide Loaded, CallsHitFirstSlots, Linked, Holds, UpTo, Lands, PlanOf, AfterTail, BytesAt, Flat;
    var plan := PlanOf(env, code, jump);
    assert Inside(Start());
    InsideUpTo(Start(), setup, plan, |plan|);
    var c := UpTo(Start(), setup, plan, |plan|);
    assert Planned(Start(), setup, plan, tail) == AfterTail(c, tail) by { BodyIs(setup, plan); }
    TailStays(c, tail, b);
    RetpolineLoops(Start(), setup, plan, tail, b, entries);
    var r := TablesOf(env, code, jump, setup, tail).retpolineLoc;
    BytesAre(b, r + 12, [0x48, 0x89, 0x04, 0x24, 0xc3]);
  }

  lemma BodyIs(setup: seq<JOp>, plan: seq<Plan>)
    ensures UpTo(Start(), setup, plan, |plan|) == Body(Start(), setup, plan)
  {
    hide AfterSlots, AfterOps;
  }

  lemma TailCalls(b: seq<u8>, o: u64, h: Host, t: Tables, tail: Tail, idx: u32)
    requires h.ip >= 0 && HelperBytes(b, h.ip, idx) && HelperFields(t, b, h.ip, idx) && o + |b| <= 0x1_0000_0000_0000_0000
    requires RetpolineBytes(b, t.retpolineLoc) && |tail.dispatcher| == 8
    requires t.dispatcherLoc + 8 <= |b| && b[t.dispatcherLoc..t.dispatcherLoc + 8] == tail.dispatcher
    requires t.helperLoc + |tail.helpers| <= |b| && b[t.helperLoc..t.helperLoc + |tail.helpers|] == tail.helpers
    requires Word8(tail.dispatcher) == 0 ==> 8 * idx + 8 <= |tail.helpers|
    ensures var d, back := Word8(tail.dispatcher), h.ip + 63 + |LoadIndex(idx)|;
      if d != 0 then Calls(o, h, Run(b, o, h, 11), d, idx, back)
      else Calls(o, h, Run(b, o, h, 17), Word8(tail.helpers[8 * idx..8 * idx + 8]), h.regs[R11], back)
  {
    hide Run, WordAt, RetpolineBytes, HelperBytes, HelperFields, LoadIndex, Word8, Calls;
    var d := Word8(tail.dispatcher);
    WordIs(b, t.dispatcherLoc, tail.dispatcher, 0);
    assert tail.dispatcher[0..8] == tail.dispatcher;
    if d == 0 {
      WordIs(b, t.helperLoc, tail.helpers, 8 * idx);
      BytesCall(b, o, h, t, idx, d, Word8(tail.helpers[8 * idx..8 * idx + 8]));
    } else {
      BytesCall(b, o, h, t, idx, d, 0);
    }
  }

  /**
    A helper call of a compiled program, run from its first byte: if the VM has a dispatcher, control goes to it with
    the index as sixth argument; if not, to entry `idx` of the helper table with the context. R1 to R5 are the first
    five arguments, and the return address is behind the call.
    */
  lemma HelperCallRuns(env: Env, code: nat -> seq<u8>, jump: nat -> seq<u8>, setup: seq<JOp>, tail: Tail,
                       b: seq<u8>, entries: map<nat, u16>, i: nat, o: u64, h: Host)
    requires Compiled(env, code, jump, setup, tail, b, entries) && i < |env.prog| && IsHelperCall(env.prog[i])
    requires h.ip == SlotAt(env, code, jump, setup, i) && o + |b| <= 0x1_0000_0000_0000_0000 && |tail.dispatcher| == 8
    requires Word8(tail.dispatcher) == 0 ==> 8 * ToU32(env.prog[i].imm) + 8 <= |tail.helpers|
    ensures var idx, d := ToU32(env.prog[i].imm), Word8(tail.dispatcher); var back := h.ip + 63 + |LoadIndex(idx)|;
      if d != 0 then Calls(o, h, Run(b, o, h, 11), d, idx, back)
      else Calls(o, h, Run(b, o, h, 17), Word8(tail.helpers[8 * idx..8 * idx + 8]), h.regs[R11], back)
  {
    hide Compiled, TablesOf, SlotAt, Run, WordAt, RetpolineBytes, HelperBytes, HelperFields, LoadIndex, Word8, Calls, Lands;
    HostCode.CompiledSize(env, code, jump, setup, tail, b, entries);
    var idx, t := ToU32(env.prog[i].imm), TablesOf(env, code, jump, setup, tail);
    HelperEmitted(env, code, jump, setup, tail, b, entries, i);
    HelperLinked(env, code, jump, setup, tail, b, entries, i);
    TailEmitted(env, code, jump, setup, tail, b, entries);
    TailCalls(b, o, h, t, tail, idx);
  }

  /**
    Back from the helper: the context is in R11 again, and the program goes on behind the call or, when the unwinding
    helper returned zero, at the exit.
    */
  lemma HelperReturns(env: Env, code: nat -> seq<u8>, jump: nat -> seq<u8>, setup: seq<JOp>, tail: Tail,
                      b: seq<u8>, entries: map<nat, u16>, i: nat, o: u64, h: Host, stack: seq<u64>, c: u64)
    requires Compiled(env, code, jump, setup, tail, b, entries) && i < |env.prog| && IsHelperCall(env.prog[i])
    requires h.ip == SlotAt(env, code, jump, setup, i) + 63 + |LoadIndex(ToU32(env.prog[i].imm))| && h.stack == stack + [c, c]
    ensures |env.prog| <= 65535
    ensures var out := Run(b, o, h, if env.prog[i].imm == env.unwind then 4 else 2);
      && out.In? && out.h.stack == stack && out.h.regs == h.regs[R11 := c]
      && out.h.ip == if env.prog[i].imm == env.unwind && h.regs[RAX] == 0 then TablesOf(env, code, jump, setup, tail).exitLoc
                     else HostCode.SlotStart(env, code, jump, setup, i + 1)
  {
    hide Compiled, TablesOf, SlotAt, Run, LoadIndex, Lands, HostCode.SlotStart;
    HostCode.CompiledSize(env, code, jump, setup, tail, b, entries);
    var unwinds, t := env.prog[i].imm == env.unwind, TablesOf(env, code, jump, setup, tail);
    HelperEmitted(env, code, jump, setup, tail, b, entries, i);
    HelperLinked(env, code, jump, setup, tail, b, entries, i);
    HelperEnds(env, code, jump, setup, i);
    PopsRun(b, o, h, stack, c);
    if unwinds {
      TestRuns(b, o, Run(b, o, h, 2).h, t.exitLoc);
      RunRuns(b, o, h, 2, 2);
    }
  }

  lemma PopsRun(b: seq<u8>, o: u64, h: Host, stack: seq<u64>, c: u64)
    requires h.ip >= 0 && BytesAt(b, h.ip, [0x41, 0x5b, 0x41, 0x5b]) && h.stack == stack + [c, c]
    ensures Run(b, o, h, 2) == In(h.(ip := h.ip + 4, regs := h.regs[R11 := c], stack := stack))
  {
    hide DecodeInsn, BytesAt, Run;
    TwoOf(b, h.ip, [0x41, 0x5b, 0x41, 0x5b], 0, 0x41, 0x5b);
    TwoOf(b, h.ip, [0x41, 0x5b, 0x41, 0x5b], 2, 0x41, 0x5b);
    PopAt(b, h.ip, R11);
    PopAt(b, h.ip + 2, R11);
    RunNone(b, o, h);
    RunNext(b, o, h, 0, h, Decoded(Pop(R11), h.ip + 2));
    assert h.stack[..|h.stack| - 1] == stack + [c];
    RunNext(b, o, h, 1, h.(ip := h.ip + 2, regs := h.regs[R11 := c], stack := stack + [c]), Decoded(Pop(R11), h.ip + 4));
    assert (stack + [c])[..|stack|] == stack && h.regs[R11 := c][R11 := c] == h.regs[R11 := c];
  }

  lemma TestRuns(b: seq<u8>, o: u64, h: Host, exit: nat)
    requires h.ip >= 0 && h.ip + 13 <= |b| && Lands(b, h.ip + 9) == exit
    requires BytesAt(b, h.ip, [0x48, 0x81, 0xf8, 0, 0, 0, 0]) && BytesAt(b, h.ip + 7, [0x0f, 0x84])
    ensures Run(b, o, h, 2) == In(h.(ip := if h.regs[RAX] == 0 then exit else h.ip + 13, zero := h.regs[RAX] == 0))
  {
    hide DecodeInsn, BytesAt, Run, Lands;
    var n, test := h.ip, [0x48, 0x81, 0xf8, 0, 0, 0, 0];
    ThreeOf(b, n, test, 0, 0x48, 0x81, 0xf8);
    FourOf(b, n, test, 3, 0, 0, 0, 0);
    AluImmAt(b, n, 0xf8, 0);
    TwoBytes(b, n + 7, 0x0f, 0x84);
    BranchAt(b, n + 7);
    RunNone(b, o, h);
    RunNext(b, o, h, 0, h, Decoded(AluImm(7, RAX, 0), n + 7));
    RunNext(b, o, h, 1, h.(ip := n + 7, zero := h.regs[RAX] == 0), Decoded(JumpIf(4, exit), n + 13));
  }

  /** Where the code of a helper call ends. */
  lemma HelperEnds(env: Env, code: nat -> seq<u8>, jump: nat -> seq<u8>, setup: seq<JOp>, i: nat)
    requires i < |env.prog| <= 65535 && IsHelperCall(env.prog[i])
    ensures HostCode.SlotStart(env, code, jump, setup, i + 1) ==
            SlotAt(env, code, jump, setup, i) + 67 + |LoadIndex(ToU32(env.prog[i].imm))| + if env.prog[i].imm == env.unwind then 13 else 0
  {
    hide LoadIndex, StepsLength, HelperCall, SlotAt, HostCode.SlotStart;
    var idx, unwinds := ToU32(env.prog[i].imm), env.prog[i].imm == env.unwind;
    HostCode.SlotEnds(env, code, jump, setup, i);
    HelperLength(idx, unwinds);
  }

  lemma HelperLength(idx: u32, unwinds: bool)
    ensures var steps := HelperCall(idx, unwinds);
      StepsLength(steps, |steps|) == 67 + |LoadIndex(idx)| + if unwinds then 13 else 0
  {
    hide LoadIndex, DefaultArm;
    MoreLengths(idx, unwinds);
    HelperCallLengths(idx, unwinds);
  }
}
