/** The value a channel map keeps per CPU, and the parser's fold of one entry's CPUs
    into one value. */
module PerCpuValue {
  import opened Checkpoint
  import opened CheckpointSplits

  datatype FlowValue = FlowValue(
    txBytes: nat, rxBytes: nat, txCalls: nat, rxCalls: nat, connections: nat,
    startNs: nat, lastNs: nat, pid: nat, ifindex: nat, state: nat)

  const EMPTY := FlowValue(0, 0, 0, 0, 0, 0, 0, 0, 0, 0)

  function CountersOf(v: FlowValue): Counters {
    [v.txBytes, v.rxBytes, v.txCalls, v.rxCalls, v.connections]
  }

  function MinNonzero(left: nat, right: nat): nat {
    if left == 0 then right
    else if right == 0 then left
    else if left <= right then left else right
  }

  function OrElse(left: nat, right: nat): nat {
    if left != 0 then left else right
  }

  /** One turn of the parser's loop. */
  function Join(a: FlowValue, v: FlowValue): FlowValue {
    FlowValue(
      a.txBytes + v.txBytes, a.rxBytes + v.rxBytes, a.txCalls + v.txCalls, a.rxCalls + v.rxCalls,
      a.connections + v.connections,
      MinNonzero(a.startNs, v.startNs), Max(a.lastNs, v.lastNs),
      OrElse(a.pid, v.pid), OrElse(a.ifindex, v.ifindex), OrElse(a.state, v.state))
  }

  function Fold(values: seq<FlowValue>): FlowValue {
    if values == [] then EMPTY else Join(Fold(values[..|values| - 1]), values[|values| - 1])
  }

  method ParsePerCpu(values: seq<FlowValue>) returns (v: FlowValue)
    ensures v == Fold(values)
    ensures CountersOf(v) == if values == [] then [0, 0, 0, 0, 0] else CpuSum(CountersEach(values))
    ensures IsEarliestStart(v.startNs, values)
    ensures forall i :: 0 <= i < |values| ==> values[i].lastNs <= v.lastNs
    ensures IsFirstNonzero(v.pid, Pids(values))
  {
    v := EMPTY;
    for i := 0 to |values|
      invariant v == Fold(values[..i])
    {
      assert values[..i + 1][..i] == values[..i];
      var txBytes, rxBytes := v.txBytes + values[i].txBytes, v.rxBytes + values[i].rxBytes;
      var txCalls, rxCalls := v.txCalls + values[i].txCalls, v.rxCalls + values[i].rxCalls;
      v := FlowValue(
        txBytes, rxBytes, txCalls, rxCalls, v.connections + values[i].connections,
        MinNonzero(v.startNs, values[i].startNs), Max(v.lastNs, values[i].lastNs),
        OrElse(v.pid, values[i].pid), OrElse(v.ifindex, values[i].ifindex), OrElse(v.state, values[i].state));
    }
    assert values[..|values|] == values;
    FoldSums(values);
    FoldEarliestStart(values);
    FoldLatest(values);
    FoldLabels(values);
  }

  function CountersEach(values: seq<FlowValue>): seq<Counters> {
    seq(|values|, i requires 0 <= i < |values| => CountersOf(values[i]))
  }

  function Pids(values: seq<FlowValue>): seq<nat> {
    seq(|values|, i requires 0 <= i < |values| => values[i].pid)
  }

  function Ifindexes(values: seq<FlowValue>): seq<nat> {
    seq(|values|, i requires 0 <= i < |values| => values[i].ifindex)
  }

  function States(values: seq<FlowValue>): seq<nat> {
    seq(|values|, i requires 0 <= i < |values| => values[i].state)
  }

  /** The counters of the folded value are the exact sums over the CPUs. */
  lemma {:induction false} FoldSums(values: seq<FlowValue>)
    ensures values != [] ==> CountersOf(Fold(values)) == CpuSum(CountersEach(values))
  {
    if values != [] {
      var n := |values| - 1;
      FoldSums(values[..n]);
      JoinAdds(Fold(values[..n]), values[n]);
      assert CountersEach(values)[..n] == CountersEach(values[..n]);
    }
  }

  lemma JoinAdds(a: FlowValue, v: FlowValue)
    ensures CountersOf(Join(a, v)) == Add(CountersOf(a), CountersOf(v))
    ensures CountersOf(Join(EMPTY, v)) == Add([], CountersOf(v))
  {
  }

  /** `r` is 0 if no CPU ever started the flow, and else the earliest real start. */
  ghost predicate IsEarliestStart(r: nat, values: seq<FlowValue>) {
    && (forall i :: 0 <= i < |values| && values[i].startNs != 0 ==> 0 < r <= values[i].startNs)
    && (r != 0 ==> exists i :: 0 <= i < |values| && values[i].startNs == r)
  }

  lemma {:induction false} FoldEarliestStart(values: seq<FlowValue>)
    ensures IsEarliestStart(Fold(values).startNs, values)
  {
    if values != [] {
      var n := |values| - 1;
      FoldEarliestStart(values[..n]);
      var r := Fold(values).startNs;
      forall i | 0 <= i < |values| && values[i].startNs != 0 ensures 0 < r <= values[i].startNs {
        if i < n {
          assert values[..n][i].startNs == values[i].startNs;
        }
      }
      if r != 0 && r != values[n].startNs {
        var i :| 0 <= i < n && values[..n][i].startNs == r;
        assert values[i].startNs == r;
      }
    }
  }

  lemma {:induction false} FoldLatest(values: seq<FlowValue>)
    ensures forall i :: 0 <= i < |values| ==> values[i].lastNs <= Fold(values).lastNs
    ensures Fold(values).lastNs == 0 || exists i :: 0 <= i < |values| && values[i].lastNs == Fold(values).lastNs
  {
    if values != [] {
      var n := |values| - 1;
      FoldLatest(values[..n]);
      forall i | 0 <= i < |values| ensures values[i].lastNs <= Fold(values).lastNs {
        if i < n {
          assert values[..n][i] == values[i];
        }
      }
      var r := Fold(values).lastNs;
      if r != 0 && r != values[n].lastNs {
        var i :| 0 <= i < n && values[..n][i].lastNs == r;
        assert values[i].lastNs == r;
      }
    }
  }

  /** `r` is the first nonzero element of `xs`, or 0 if there is none. */
  ghost predicate IsFirstNonzero(r: nat, xs: seq<nat>) {
    if r == 0 then forall i :: 0 <= i < |xs| ==> xs[i] == 0
    else exists i :: 0 <= i < |xs| && xs[i] == r && forall j :: 0 <= j < i ==> xs[j] == 0
  }

  lemma FirstNonzeroStep(r: nat, xs: seq<nat>, x: nat)
    requires IsFirstNonzero(r, xs)
    ensures IsFirstNonzero(OrElse(r, x), xs + [x])
  {
    if r != 0 {
      var i :| 0 <= i < |xs| && xs[i] == r && forall j :: 0 <= j < i ==> xs[j] == 0;
      assert (xs + [x])[i] == r && forall j :: 0 <= j < i ==> (xs + [x])[j] == 0;
    } else if x != 0 {
      assert (xs + [x])[|xs|] == x;
    }
  }

  /** pid, ifindex and state each come from the first CPU that has one. */
  lemma {:induction false} FoldLabels(values: seq<FlowValue>)
    ensures IsFirstNonzero(Fold(values).pid, Pids(values))
    ensures IsFirstNonzero(Fold(values).ifindex, Ifindexes(values))
    ensures IsFirstNonzero(Fold(values).state, States(values))
  {
    if values != [] {
      var n := |values| - 1;
      FoldLabels(values[..n]);
      var init := Fold(values[..n]);
      FirstNonzeroStep(init.pid, Pids(values[..n]), values[n].pid);
      FirstNonzeroStep(init.ifindex, Ifindexes(values[..n]), values[n].ifindex);
      FirstNonzeroStep(init.state, States(values[..n]), values[n].state);
      assert Pids(values) == Pids(values[..n]) + [values[n].pid];
      assert Ifindexes(values) == Ifindexes(values[..n]) + [values[n].ifindex];
      assert States(values) == States(values[..n]) + [values[n].state];
    }
  }

  /** The order of the CPUs makes no difference to counters and times ... */
  lemma FoldIgnoresCpuOrder(values: seq<FlowValue>, others: seq<FlowValue>)
    requires multiset(values) == multiset(others)
    ensures CountersOf(Fold(values)) == CountersOf(Fold(others))
    ensures Fold(values).startNs == Fold(others).startNs && Fold(values).lastNs == Fold(others).lastNs
  {
    CountersIgnoreCpuOrder(values, others);
    TimesIgnoreCpuOrder(values, others);
    TimesIgnoreCpuOrder(others, values);
  }

  lemma TimesIgnoreCpuOrder(values: seq<FlowValue>, others: seq<FlowValue>)
    requires multiset(values) == multiset(others)
    ensures Fold(values).startNs != 0 ==> 0 < Fold(others).startNs <= Fold(values).startNs
    ensures Fold(values).lastNs <= Fold(others).lastNs
  {
    FoldEarliestStart(values);
    FoldLatest(values);
    if Fold(values).startNs != 0 {
      var i :| 0 <= i < |values| && values[i].startNs == Fold(values).startNs;
      var j := Position(values, others, i);
      FoldEarliestStart(others);
    }
    if Fold(values).lastNs != 0 {
      var i :| 0 <= i < |values| && values[i].lastNs == Fold(values).lastNs;
      var j := Position(values, others, i);
      FoldLatest(others);
    }
  }

  lemma Position<T>(values: seq<T>, others: seq<T>, i: nat) returns (j: nat)
    requires multiset(values) == multiset(others) && i < |values|
    ensures j < |others| && others[j] == values[i]
  {
    assert values[i] in multiset(values);
    assert values[i] in others;
    j :| 0 <= j < |others| && others[j] == values[i];
  }

  lemma CountersIgnoreCpuOrder(values: seq<FlowValue>, others: seq<FlowValue>)
    requires multiset(values) == multiset(others)
    ensures CountersOf(Fold(values)) == CountersOf(Fold(others))
  {
    if values == [] {
      assert |multiset(others)| == 0;
    } else {
      assert |multiset(values)| == |values| && |multiset(others)| == |others|;
      FoldSums(values);
      FoldSums(others);
      CpuSumPermuted(values, others);
    }
  }

  lemma {:induction false} CpuSumPermuted(values: seq<FlowValue>, others: seq<FlowValue>)
    requires multiset(values) == multiset(others)
    ensures CpuSum(CountersEach(values)) == CpuSum(CountersEach(others))
  {
    if values == [] {
      assert |multiset(others)| == 0;
    } else {
      var n := |values| - 1;
      var front, back := FindLast(values, others);
      CpuSumPermuted(values[..n], front + back);
      SumOfOneMore(values[..n], values[n], []);
      SumOfOneMore(front, values[n], back);
      assert values == values[..n] + [values[n]] + [] && values[..n] + [] == values[..n];
    }
  }

  lemma SumOfOneMore(front: seq<FlowValue>, v: FlowValue, back: seq<FlowValue>)
    ensures CpuSum(CountersEach(front + [v] + back)) == Add(CpuSum(CountersEach(front + back)), CpuSum([CountersOf(v)]))
  {
    assert CountersEach(front + [v] + back) == CountersEach(front) + [CountersOf(v)] + CountersEach(back);
    assert CountersEach(front + back) == CountersEach(front) + CountersEach(back);
    MoveToTheEnd(CountersEach(front), CountersOf(v), CountersEach(back));
  }

  /** One CPU's counters may as well be added last. */
  lemma MoveToTheEnd(front: seq<Counters>, x: Counters, back: seq<Counters>)
    ensures CpuSum(front + [x] + back) == Add(CpuSum(front + back), CpuSum([x]))
  {
    CpuSumConcat(front + [x], back);
    CpuSumConcat(front, [x]);
    CpuSumConcat(front, back);
    LastCommutes(CpuSum(front), CpuSum([x]), CpuSum(back));
  }

  lemma LastCommutes(f: Counters, x: Counters, b: Counters)
    ensures Add(Add(f, x), b) == Add(Add(f, b), x)
  {
  }

  /** The parts of a value that a row shows as they are. */
  datatype Label = Pid | Ifindex | State

  function Part(v: FlowValue, l: Label): nat {
    match l
    case Pid => v.pid
    case Ifindex => v.ifindex
    case State => v.state
  }

  /** At most one nonzero value occurs in `xs`. */
  ghost predicate OneNonzero(xs: seq<nat>) {
    forall i, j :: 0 <= i < |xs| && 0 <= j < |xs| && xs[i] != 0 && xs[j] != 0 ==> xs[i] == xs[j]
  }

  /** The labels of the row do not depend on the order of the CPUs. */
  ghost predicate SameInAnyOrder(values: seq<FlowValue>, l: Label) {
    forall others: seq<FlowValue> :: multiset(others) == multiset(values) ==>
      Part(Fold(others), l) == Part(Fold(values), l)
  }

  /** The values with the `i`-th one first. */
  function FirstIs(values: seq<FlowValue>, i: nat): seq<FlowValue>
    requires i < |values|
  {
    [values[i]] + (values[..i] + values[i + 1..])
  }

  lemma FirstIsAnOrder(values: seq<FlowValue>, i: nat)
    requires i < |values|
    ensures multiset(FirstIs(values, i)) == multiset(values)
  {
    assert values == values[..i] + ([values[i]] + values[i + 1..]);
  }

  function Each(values: seq<FlowValue>, l: Label): seq<nat> {
    seq(|values|, i requires 0 <= i < |values| => Part(values[i], l))
  }

  lemma LabelIsFirst(values: seq<FlowValue>, l: Label)
    ensures IsFirstNonzero(Part(Fold(values), l), Each(values, l))
  {
    FoldLabels(values);
    assert Each(values, l) ==
      match l case Pid => Pids(values) case Ifindex => Ifindexes(values) case State => States(values);
  }

  lemma FirstDecides(values: seq<FlowValue>, l: Label)
    requires values != [] && Part(values[0], l) != 0
    ensures Part(Fold(values), l) == Part(values[0], l)
  {
    LabelIsFirst(values, l);
    assert Each(values, l)[0] == Part(values[0], l);
  }

  lemma LabelOccurs(values: seq<FlowValue>, others: seq<FlowValue>, l: Label) returns (i: nat)
    requires multiset(others) == multiset(values) && Part(Fold(others), l) != 0
    ensures i < |values| && Part(values[i], l) == Part(Fold(others), l)
  {
    LabelIsFirst(others, l);
    var j :| 0 <= j < |others| && Each(others, l)[j] == Part(Fold(others), l);
    i := Position(others, values, j);
  }

  lemma DifferentFolds(values: seq<FlowValue>, others: seq<FlowValue>, l: Label)
    requires multiset(others) == multiset(values) && Part(Fold(others), l) != Part(Fold(values), l)
    ensures !OneNonzero(Each(values, l))
  {
    var xs := Each(values, l);
    if Part(Fold(others), l) == 0 {
      ZeroFold(values, others, l);
    } else if Part(Fold(values), l) == 0 {
      ZeroFold(others, values, l);
    } else {
      var i := LabelOccurs(values, others, l);
      var j := LabelOccurs(values, values, l);
      assert xs[i] == Part(Fold(others), l) && xs[j] == Part(Fold(values), l);
    }
  }

  lemma NowhereShown(values: seq<FlowValue>, l: Label)
    requires Part(Fold(values), l) == 0
    ensures forall i :: 0 <= i < |values| ==> Part(values[i], l) == 0
  {
    LabelIsFirst(values, l);
    forall i | 0 <= i < |values| ensures Part(values[i], l) == 0 {
      assert Each(values, l)[i] == 0;
    }
  }

  lemma ZeroFold(values: seq<FlowValue>, others: seq<FlowValue>, l: Label)
    requires multiset(others) == multiset(values) && Part(Fold(others), l) == 0
    ensures Part(Fold(values), l) == 0
  {
    NowhereShown(others, l);
    if Part(Fold(values), l) != 0 {
      var i := LabelOccurs(others, values, l);
    }
  }

  /** ... but it can decide which pid, interface and state a row shows: each is the same in
      every order of the CPUs if and only if no two CPUs have different nonzero ones. */
  lemma LabelsIgnoreCpuOrderIff(values: seq<FlowValue>, l: Label)
    ensures SameInAnyOrder(values, l) <==> OneNonzero(Each(values, l))
  {
    if SameInAnyOrder(values, l) {
      forall i, j | 0 <= i < |values| && 0 <= j < |values| && Part(values[i], l) != 0 && Part(values[j], l) != 0
        ensures Part(values[i], l) == Part(values[j], l)
      {
        FirstIsAnOrder(values, i);
        FirstIsAnOrder(values, j);
        FirstDecides(FirstIs(values, i), l);
        FirstDecides(FirstIs(values, j), l);
      }
    } else {
      var others: seq<FlowValue> :| multiset(others) == multiset(values) &&
        Part(Fold(others), l) != Part(Fold(values), l);
      DifferentFolds(values, others, l);
    }
  }
}
