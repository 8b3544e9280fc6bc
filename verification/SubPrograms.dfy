/** Sub-programs: the intervals between consecutive local-call targets, and the check that they are self-contained. */
module SubPrograms {
  import opened Isa

  predicate IsLocalCall(prog: seq<Inst>, i: int)
  {
    0 <= i < |prog| && prog[i].opcode == 0x85 && prog[i].src == 1
  }

  function CallTarget(prog: seq<Inst>, i: int): int
    requires 0 <= i < |prog|
  {
    i + 1 + prog[i].imm
  }

  predicate CallsInRange(prog: seq<Inst>)
  {
    forall k :: 0 <= k < |prog| && IsLocalCall(prog, k) ==> 0 <= CallTarget(prog, k) < |prog|
  }

  /** The targets of the local calls among the first `n` slots. */
  function Targets(prog: seq<Inst>, n: nat): set<int>
    requires n <= |prog|
  {
    if n == 0 then {}
    else Targets(prog, n - 1) + (if IsLocalCall(prog, n - 1) then {CallTarget(prog, n - 1)} else {})
  }

  function LocalTargets(prog: seq<Inst>): set<int> { Targets(prog, |prog|) }

  /** Where sub-programs start. */
  function Starts(prog: seq<Inst>): set<int> { {0} + LocalTargets(prog) }

  /** The start of the sub-program slot `j` lies in, and the first slot after it. */
  function StartOf(starts: set<int>, j: nat): (r: nat)
    ensures r <= j
  {
    if j == 0 || j in starts then j else StartOf(starts, j - 1)
  }

  function EndOf(starts: set<int>, n: nat, j: nat): (r: nat)
    requires j < n
    ensures j < r <= n
    decreases n - j
  {
    if j + 1 == n || j + 1 in starts then j + 1 else EndOf(starts, n, j + 1)
  }

  /** A slot whose opcode is a jump: class JMP or JMP32, other than CALL and EXIT. */
  predicate IsJump(inst: Inst)
  {
    (inst.opcode % 8 == 5 || inst.opcode % 8 == 6) && inst.opcode != 0x85 && inst.opcode != 0x95
  }

  function JumpTarget(prog: seq<Inst>, j: int): int
    requires 0 <= j < |prog|
  {
    j + 1 + (if prog[j].opcode == 0x06 then prog[j].imm else prog[j].offset)
  }

  predicate JumpStays(prog: seq<Inst>, first: int, end: int, j: int)
    requires 0 <= j < |prog|
  {
    IsJump(prog[j]) ==> first <= JumpTarget(prog, j) < end
  }

  predicate EndsWell(prog: seq<Inst>, first: int, end: int)
    requires 0 <= first < end <= |prog|
  {
    || prog[end - 1].opcode == 0x95
    || (end >= first + 2 && (prog[end - 2].opcode == 0x05 || prog[end - 2].opcode == 0x06))
  }

  predicate SlotOk(prog: seq<Inst>, j: nat)
    requires j < |prog|
  {
    var first, end := StartOf(Starts(prog), j), EndOf(Starts(prog), |prog|, j);
    JumpStays(prog, first, end, j) && (j == first ==> EndsWell(prog, first, end))
  }

  /** No jump leaves its sub-program and each sub-program has one of the accepted endings. */
  predicate SelfContained(prog: seq<Inst>)
  {
    LocalTargets(prog) == {} || forall j :: 0 <= j < |prog| ==> SlotOk(prog, j)
  }

  // ---------------------------------------------------------------- sorting and in-place deduplication

  predicate Ascending(s: seq<int>) { forall i, j :: 0 <= i < j < |s| ==> s[i] <= s[j] }

  predicate StrictlyAscending(s: seq<int>) { forall i, j :: 0 <= i < j < |s| ==> s[i] < s[j] }

  function Insert(x: int, s: seq<int>): seq<int>
  {
    if s == [] || x <= s[0] then [x] + s else [s[0]] + Insert(x, s[1..])
  }

  /** The ascending permutation of `s`: what `qsort` with an integer comparison leaves. */
  function Sorted(s: seq<int>): seq<int>
  {
    if s == [] then [] else Insert(s[0], Sorted(s[1..]))
  }

  lemma {:induction false} InsertPermutes(x: int, s: seq<int>)
    ensures multiset(Insert(x, s)) == multiset(s) + multiset{x}
  {
    if s == [] || x <= s[0] {
    } else {
      InsertPermutes(x, s[1..]);
      assert s == [s[0]] + s[1..];
    }
  }

  lemma {:induction false} InsertMembers(x: int, s: seq<int>, y: int)
    ensures y in Insert(x, s) <==> y == x || y in s
  {
    if s == [] || x <= s[0] {
    } else {
      InsertMembers(x, s[1..], y);
      assert s == [s[0]] + s[1..];
    }
  }

  lemma {:induction false} InsertAscending(x: int, s: seq<int>)
    requires Ascending(s)
    ensures Ascending(Insert(x, s))
  {
    if s == [] || x <= s[0] {
    } else {
      var t := Insert(x, s[1..]);
      InsertAscending(x, s[1..]);
      forall i | 0 <= i < |t|
        ensures s[0] <= t[i]
      {
        InsertMembers(x, s[1..], t[i]);
      }
    }
  }

  lemma {:induction false} SortedIsSorted(s: seq<int>)
    ensures Ascending(Sorted(s)) && multiset(Sorted(s)) == multiset(s)
  {
    if s != [] {
      SortedIsSorted(s[1..]);
      InsertAscending(s[0], Sorted(s[1..]));
      InsertPermutes(s[0], Sorted(s[1..]));
      assert s == [s[0]] + s[1..];
    }
  }

  lemma SortedMembers(s: seq<int>)
    ensures |Sorted(s)| == |s|
    ensures forall x :: x in Sorted(s) <==> x in s
  {
    SortedIsSorted(s);
    assert |Sorted(s)| == |multiset(Sorted(s))| == |multiset(s)| == |s|;
    forall x
      ensures x in Sorted(s) <==> x in s
    {
      assert x in Sorted(s) <==> x in multiset(Sorted(s));
      assert x in s <==> x in multiset(s);
    }
  }

  method SortArray(a: array<int>)
    modifies a
    ensures a[..] == Sorted(old(a[..]))
  {
    var r := Sorted(a[..]);
    SortedMembers(a[..]);
    var i := 0;
    while i < a.Length
      invariant 0 <= i <= a.Length && a[..i] == r[..i]
    {
      a[i] := r[i];
      i := i + 1;
    }
    assert a[..] == a[..i] && r == r[..i];
  }

  /** An ascending sequence without its repetitions. */
  function Unique(s: seq<int>): (r: seq<int>)
    ensures |r| <= |s|
  {
    var n := |s|;
    if n <= 1 then s
    else if s[n - 1] == s[n - 2] then Unique(s[..n - 1])
    else Unique(s[..n - 1]) + [s[n - 1]]
  }

  lemma {:induction false} UniqueAscends(s: seq<int>)
    requires Ascending(s) && s != []
    ensures Unique(s) != [] && StrictlyAscending(Unique(s)) && Unique(s)[|Unique(s)| - 1] == s[|s| - 1]
  {
    var n := |s|;
    if n > 1 {
      UniqueAscends(s[..n - 1]);
      assert s[..n - 1][n - 2] == s[n - 2] <= s[n - 1];
    }
  }

  lemma {:induction false} UniqueMember(s: seq<int>, x: int)
    ensures x in Unique(s) <==> x in s
  {
    var n := |s|;
    if n > 1 {
      UniqueMember(s[..n - 1], x);
      assert s == s[..n - 1] + [s[n - 1]];
      assert s[n - 2] in s[..n - 1];
    }
  }

  lemma UniqueProperties(s: seq<int>)
    requires Ascending(s) && s != []
    ensures Unique(s) != [] && StrictlyAscending(Unique(s))
    ensures forall x :: x in Unique(s) <==> x in s
  {
    UniqueAscends(s);
    forall x
      ensures x in Unique(s) <==> x in s
    {
      UniqueMember(s, x);
    }
  }

  /** Sorts the array, squeezes out repetitions in place and returns how many entries remain. */
  method Deduplicate(a: array<int>) returns (count: nat)
    requires a.Length > 0
    modifies a
    ensures count <= a.Length && a[..count] == Unique(Sorted(old(a[..])))
  {
    hide Ascending, Sorted, Insert;
    SortArray(a);
    ghost var s := a[..];
    assert Ascending(s) by { SortedIsSorted(old(a[..])); }
    var write, read := 0, 1;
    assert a[..1] == Unique(s[..1]);
    hide Unique;
    while read < a.Length
      invariant 0 <= write < read <= a.Length
      invariant forall k :: read <= k < a.Length ==> a[k] == s[k]
      invariant a[..write + 1] == Unique(s[..read])
    {
      DedupStep(s, read);
      assert a[write] == a[..write + 1][write];
      if a[read] != a[write] {
        write := write + 1;
        a[write] := a[read];
        assert a[..write + 1] == a[..write] + [s[read]];
      }
      read := read + 1;
    }
    assert s[..read] == s;
    count := write + 1;
  }

  lemma DedupStep(s: seq<int>, read: nat)
    requires Ascending(s) && 1 <= read < |s|
    ensures var u := Unique(s[..read]);
      && u != [] && u[|u| - 1] == s[read - 1]
      && Unique(s[..read + 1]) == if s[read] == u[|u| - 1] then u else u + [s[read]]
  {
    UniqueAscends(s[..read]);
    assert s[..read + 1][..read] == s[..read];
  }

  // ---------------------------------------------------------------- the list of starts

  /** The local-call targets among the first `n` slots, in order and with repetitions. */
  function CallList(prog: seq<Inst>, n: nat): seq<int>
    requires n <= |prog|
  {
    if n == 0 then []
    else CallList(prog, n - 1) + (if IsLocalCall(prog, n - 1) then [CallTarget(prog, n - 1)] else [])
  }

  lemma {:induction false} CallListMembers(prog: seq<Inst>, n: nat)
    requires n <= |prog|
    ensures forall x :: x in CallList(prog, n) <==> x in Targets(prog, n)
    ensures CallList(prog, n) == [] <==> Targets(prog, n) == {}
  {
    if n > 0 {
      CallListMembers(prog, n - 1);
    }
  }

  lemma {:induction false} TargetOf(prog: seq<Inst>, n: nat, x: int) returns (i: nat)
    requires n <= |prog| && x in Targets(prog, n)
    ensures i < n && IsLocalCall(prog, i) && CallTarget(prog, i) == x
  {
    if IsLocalCall(prog, n - 1) && CallTarget(prog, n - 1) == x {
      i := n - 1;
    } else {
      i := TargetOf(prog, n - 1, x);
    }
  }

  lemma {:induction false} TargetIn(prog: seq<Inst>, n: nat, i: nat)
    requires i < n <= |prog| && IsLocalCall(prog, i)
    ensures CallTarget(prog, i) in Targets(prog, n)
  {
    if i < n - 1 {
      TargetIn(prog, n - 1, i);
    }
  }

  /** What the array of start indices holds after sorting and deduplication. */
  function StartList(prog: seq<Inst>): seq<int> { Unique(Sorted(CallList(prog, |prog|) + [0])) }

  function Bound(l: seq<int>, n: nat, i: nat): int
    requires i <= |l|
  {
    if i < |l| then l[i] else n
  }

  /** Slot `j` lies in interval `i` of the list. */
  predicate InInterval(l: seq<int>, n: nat, i: int, j: int)
  {
    0 <= i < |l| && l[i] <= j < Bound(l, n, i + 1)
  }

  /** A sequence that lists a set of starts in increasing order. */
  ghost predicate Lists(l: seq<int>, starts: set<int>, n: nat)
  {
    && StrictlyAscending(l) && l != [] && l[0] == 0
    && (forall x :: x in l <==> x in starts)
    && (forall i :: 0 <= i < |l| ==> 0 <= l[i] < n)
  }

  /** The start array is strictly increasing, begins at 0 and holds exactly 0 and the call targets. */
  lemma StartListIsStarts(prog: seq<Inst>)
    requires prog != [] && CallsInRange(prog)
    ensures Lists(StartList(prog), Starts(prog), |prog|)
  {
    var raw, l := CallList(prog, |prog|) + [0], StartList(prog);
    SortedMembers(raw);
    SortedIsSorted(raw);
    UniqueProperties(Sorted(raw));
    CallListMembers(prog, |prog|);
    assert forall x :: x in l <==> x in raw;
    forall i | 0 <= i < |l|
      ensures 0 <= l[i] < |prog|
    {
      assert l[i] in l;
      if l[i] != 0 {
        var k := TargetOf(prog, |prog|, l[i]);
      }
    }
    assert raw[|raw| - 1] == 0;
    assert 0 in l;
    var z :| 0 <= z < |l| && l[z] == 0;
    assert l[0] <= l[z];
  }

  lemma {:induction false} NoStartInside(l: seq<int>, starts: set<int>, n: nat, i: nat, j: nat)
    requires Lists(l, starts, n) && InInterval(l, n, i, j) && j != l[i]
    ensures j !in starts
  {
    forall k | 0 <= k < |l|
      ensures l[k] != j
    {
      if k <= i {
        assert l[k] <= l[i];
      } else {
        assert l[i + 1] <= l[k];
      }
    }
  }

  lemma {:induction false} IntervalStart(l: seq<int>, starts: set<int>, n: nat, i: nat, j: nat)
    requires Lists(l, starts, n) && InInterval(l, n, i, j)
    ensures StartOf(starts, j) == l[i]
  {
    if j == l[i] {
      assert l[i] in l;
    } else {
      NoStartInside(l, starts, n, i, j);
      IntervalStart(l, starts, n, i, j - 1);
    }
  }

  lemma {:induction false} IntervalEnd(l: seq<int>, starts: set<int>, n: nat, i: nat, j: nat)
    requires Lists(l, starts, n) && InInterval(l, n, i, j) && j < n
    ensures EndOf(starts, n, j) == Bound(l, n, i + 1)
    decreases n - j
  {
    if j + 1 == Bound(l, n, i + 1) {
      if i + 1 < |l| {
        assert l[i + 1] in l;
      }
    } else {
      NoStartInside(l, starts, n, i, j + 1);
      IntervalEnd(l, starts, n, i, j + 1);
    }
  }

  /** The intervals partition the program: every slot lies in exactly one. */
  lemma {:induction false} IntervalsPartition(l: seq<int>, n: nat, k: nat, j: nat) returns (i: nat)
    requires StrictlyAscending(l) && k < |l| && l[k] <= j < n && (forall x :: 0 <= x < |l| ==> l[x] < n)
    ensures InInterval(l, n, i, j)
    ensures forall i' :: InInterval(l, n, i', j) ==> i' == i
    decreases |l| - k
  {
    if j < Bound(l, n, k + 1) {
      i := k;
      forall i' | 0 <= i' < |l| && i' != i
        ensures !InInterval(l, n, i', j)
      {
        if i' < i {
          assert l[i' + 1] <= l[i];
        } else {
          assert l[i + 1] <= l[i'];
        }
      }
    } else {
      i := IntervalsPartition(l, n, k + 1, j);
    }
  }

  // ---------------------------------------------------------------- the check

  method CheckSelfContained(prog: seq<Inst>) returns (ok: bool)
    requires CallsInRange(prog)
    ensures ok <==> SelfContained(prog)
  {
    CallListMembers(prog, |prog|);
    var starts := CollectStarts(prog);
    if starts.Length == 1 {
      return true;
    }
    var count := Deduplicate(starts);
    StartListIsStarts(prog);
    ok := CheckIntervals(prog, starts[..count]);
  }

  /** The first two loops: count the local calls, then store their targets, leaving a zero at the end. */
  method CollectStarts(prog: seq<Inst>) returns (starts: array<int>)
    ensures fresh(starts) && starts[..] == CallList(prog, |prog|) + [0]
  {
    var calls := 0;
    for i := 0 to |prog|
      invariant calls == |CallList(prog, i)|
    {
      if IsLocalCall(prog, i) {
        calls := calls + 1;
      }
    }
    starts := new int[calls + 1](_ => 0);
    var index := 0;
    for i := 0 to |prog|
      invariant index == |CallList(prog, i)| <= |CallList(prog, |prog|)|
      invariant starts[..index] == CallList(prog, i)
      invariant starts[calls] == 0
    {
      CallListGrows(prog, i + 1, |prog|);
      if IsLocalCall(prog, i) {
        starts[index] := CallTarget(prog, i);
        index := index + 1;
      }
    }
    assert starts[..] == starts[..index] + [0];
  }

  lemma {:induction false} CallListGrows(prog: seq<Inst>, i: nat, n: nat)
    requires i <= n <= |prog|
    ensures |CallList(prog, i)| <= |CallList(prog, n)|
  {
    if i < n {
      CallListGrows(prog, i, n - 1);
    }
  }

  /** The nested loops over the sub-programs and their slots. */
  method CheckIntervals(prog: seq<Inst>, l: seq<int>) returns (ok: bool)
    requires prog != [] && Lists(l, Starts(prog), |prog|)
    ensures ok <==> forall j :: 0 <= j < |prog| ==> SlotOk(prog, j)
  {
    var n := |prog|;
    var i := 0;
    while i < |l|
      invariant 0 <= i <= |l|
      invariant forall j :: 0 <= j < Bound(l, n, i) ==> SlotOk(prog, j)
    {
      var first, end := l[i], if i == |l| - 1 then n else l[i + 1];
      forall j | first <= j < end
        ensures SlotOk(prog, j) <==> JumpStays(prog, first, end, j) && (j == first ==> EndsWell(prog, first, end))
      {
        assert InInterval(l, n, i, j);
        IntervalStart(l, Starts(prog), n, i, j);
        IntervalEnd(l, Starts(prog), n, i, j);
      }
      var j := first;
      while j < end
        invariant first <= j <= end
        invariant forall k :: first <= k < j ==> JumpStays(prog, first, end, k)
      {
        if IsJump(prog[j]) && !(first <= JumpTarget(prog, j) < end) {
          assert !SlotOk(prog, j);
          return false;
        }
        j := j + 1;
      }
      if !EndsWell(prog, first, end) {
        assert !SlotOk(prog, first);
        return false;
      }
      i := i + 1;
    }
    return true;
  }
}
