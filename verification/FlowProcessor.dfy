/** Reference-counted processors shared between flow lists (components/MCU/app/flowProcessor.cc). */
module FlowProcessor {
  import opened Options

  const MAX_FLOW_LEN: nat := 0xffff

  datatype Result = S_OK | E_ERROR | E_PROC_NOT_EXISTS

  /** A participant's flow; its port list plays no part here. */
  datatype Flow = Flow(PT: int, ID: nat)

  class Target {
    const ID: nat
    const PT: int

    constructor (ID: nat, PT: int)
      ensures this.ID == ID && this.PT == PT
    {
      this.ID, this.PT := ID, PT;
    }
  }

  function WithTarget(ts: seq<Target>, target: Target): seq<Target> {
    if target in ts then ts else ts + [target]
  }

  /** The first target with an ID taken out. */
  function WithoutID(ts: seq<Target>, ID: nat): seq<Target> {
    if ts == [] then [] else if ts[0].ID == ID then ts[1..] else [ts[0]] + WithoutID(ts[1..], ID)
  }

  function IDs(ts: seq<Target>): set<nat> {
    set t | t in ts :: t.ID
  }

  lemma {:induction false} WithoutIDAt(ts: seq<Target>, i: nat)
    requires i < |ts| && forall k | 0 <= k < i :: ts[k].ID != ts[i].ID
    ensures WithoutID(ts, ts[i].ID) == ts[..i] + ts[i + 1..]
  {
    if i > 0 {
      WithoutIDAt(ts[1..], i - 1);
      assert [ts[0]] + (ts[1..][..i - 1] + ts[1..][i..]) == ts[..i] + ts[i + 1..];
    }
  }

  class Processor {
    const PT: int
    var targetArray: seq<Target>
    /** A u16. */
    var referenceCount: nat
    /** Kept by the mixer's processors, which start with a random one. */
    var SSRC: bv32

    constructor (PT: int)
      ensures this.PT == PT && targetArray == [] && referenceCount == 0
    {
      this.PT, targetArray, referenceCount := PT, [], 0;
    }

    method AddTarget(target: Target)
      modifies this`targetArray
      ensures targetArray == WithTarget(old(targetArray), target)
      ensures target in targetArray && old(targetArray) <= targetArray
      ensures |targetArray| == |old(targetArray)| + if target in old(targetArray) then 0 else 1
    {
      for i := 0 to |targetArray|
        invariant targetArray == old(targetArray)
        invariant target !in targetArray[..i]
      {
        if target == targetArray[i] {
          return;
        }
      }
      targetArray := targetArray + [target];
    }

    method DeleteTarget(target: Target) returns (r: Result)
      modifies this`targetArray
      ensures r == if target.ID in IDs(old(targetArray)) then S_OK else E_ERROR
      ensures targetArray == WithoutID(old(targetArray), target.ID)
      ensures r == E_ERROR ==> targetArray == old(targetArray)
      ensures r == S_OK ==>
                exists i | 0 <= i < |old(targetArray)| ::
                  && old(targetArray)[i].ID == target.ID
                  && (forall k | 0 <= k < i :: old(targetArray)[k].ID != target.ID)
                  && targetArray == old(targetArray)[..i] + old(targetArray)[i + 1..]
    {
      for i := 0 to |targetArray|
        invariant targetArray == old(targetArray)
        invariant forall k | 0 <= k < i :: targetArray[k].ID != target.ID
      {
        if target.ID == targetArray[i].ID {
          WithoutIDAt(targetArray, i);
          assert targetArray[i] in targetArray;
          targetArray := targetArray[..i] + targetArray[i + 1..];
          return S_OK;
        }
      }
      WithoutNothing(targetArray, target.ID);
      return E_ERROR;
    }

    method SetSSRC(numSSRC: bv32)
      modifies this`SSRC
      ensures SSRC == numSSRC
    {
      SSRC := numSSRC;
    }

    static lemma {:induction false} WithoutNothing(ts: seq<Target>, ID: nat)
      requires forall k | 0 <= k < |ts| :: ts[k].ID != ID
      ensures WithoutID(ts, ID) == ts
    {
      if ts != [] {
        WithoutNothing(ts[1..], ID);
      }
    }

    method AddRef() returns (count: nat)
      modifies this`referenceCount
      ensures count == referenceCount == (old(referenceCount) + 1) % 0x10000
    {
      referenceCount := (referenceCount + 1) % 0x10000;
      return referenceCount;
    }

    method DecRef() returns (count: nat)
      modifies this`referenceCount
      ensures count == referenceCount == if old(referenceCount) != 0 then old(referenceCount) - 1 else 0
    {
      if referenceCount != 0 {
        referenceCount := referenceCount - 1;
      }
      return referenceCount;
    }
  }

  /** outFlow_t: one entry of a flow list. */
  datatype OutFlow = OutFlow(ID: nat, processor: Processor, inFlow: Flow)

  // ---------- Counting entries ----------

  /** How many entries of a list are for a processor. */
  function Count(l: seq<OutFlow>, p: Processor): nat {
    if l == [] then 0 else Count(l[..|l| - 1], p) + if l[|l| - 1].processor == p then 1 else 0
  }

  function CountAll(m: seq<seq<OutFlow>>, p: Processor): nat {
    if m == [] then 0 else CountAll(m[..|m| - 1], p) + Count(m[|m| - 1], p)
  }

  ghost predicate Uses(l: seq<OutFlow>, p: Processor) {
    exists k | 0 <= k < |l| :: l[k].processor == p
  }

  /** No processor has two entries. */
  ghost predicate NoneTwice(l: seq<OutFlow>) {
    forall j, k | 0 <= j < k < |l| :: l[j].processor != l[k].processor
  }

  lemma {:induction false} CountOf(l: seq<OutFlow>, p: Processor)
    ensures Count(l, p) > 0 <==> Uses(l, p)
    ensures NoneTwice(l) ==> Count(l, p) <= 1
  {
    if l != [] {
      var n := |l| - 1;
      CountOf(l[..n], p);
      if k :| 0 <= k < |l| && l[k].processor == p {
        assert k < n ==> l[..n][k].processor == p;
      }
    }
  }

  lemma {:induction false} CountOfConcat(l: seq<OutFlow>, l': seq<OutFlow>, p: Processor)
    ensures Count(l + l', p) == Count(l, p) + Count(l', p)
  {
    if l' == [] {
      assert l + l' == l;
    } else {
      CountOfConcat(l, l'[..|l'| - 1], p);
      assert (l + l')[..|l + l'| - 1] == l + l'[..|l'| - 1];
    }
  }

  lemma CountAfterAdd(l: seq<OutFlow>, o: OutFlow, p: Processor)
    ensures Count(l + [o], p) == Count(l, p) + if o.processor == p then 1 else 0
  {
    assert (l + [o])[..|l|] == l;
  }

  lemma CountWithout(l: seq<OutFlow>, i: nat, p: Processor)
    requires i < |l|
    ensures Count(l[..i] + l[i + 1..], p) == Count(l, p) - if l[i].processor == p then 1 else 0
  {
    hide Count;
    CountOfConcat(l[..i], l[i + 1..], p);
    CountAfterAdd(l[..i], l[i], p);
    CountOfConcat(l[..i] + [l[i]], l[i + 1..], p);
    assert l == l[..i] + [l[i]] + l[i + 1..];
  }

  /** Changing one list changes the totals by that list's entries. */
  lemma {:induction false} CountAllAfter(m: seq<seq<OutFlow>>, i: nat, l: seq<OutFlow>, p: Processor)
    requires i < |m|
    ensures CountAll(m[i := l], p) == CountAll(m, p) - Count(m[i], p) + Count(l, p)
  {
    var n := |m| - 1;
    if i == n {
      assert m[i := l][..n] == m[..n];
    } else {
      CountAllAfter(m[..n], i, l, p);
      assert m[i := l][..n] == m[..n][i := l];
    }
  }

  /** A processor is counted if it has an entry somewhere, and at most once for each list. */
  lemma {:induction false} CountAllOf(m: seq<seq<OutFlow>>, p: Processor)
    ensures CountAll(m, p) > 0 <==> exists i | 0 <= i < |m| :: Uses(m[i], p)
    ensures (forall i | 0 <= i < |m| :: NoneTwice(m[i])) ==> CountAll(m, p) <= |m|
  {
    hide Uses, NoneTwice, Count;
    if m != [] {
      var n := |m| - 1;
      CountAllOf(m[..n], p);
      CountOf(m[n], p);
      if i :| 0 <= i < |m| && Uses(m[i], p) {
        assert i < n ==> Uses(m[..n][i], p);
      }
    }
  }

  /** A list that does not use a processor leaves room for one more reference. */
  lemma RoomForOneMore(m: seq<seq<OutFlow>>, i: nat, p: Processor)
    requires i < |m| && !Uses(m[i], p)
    requires forall k | 0 <= k < |m| :: NoneTwice(m[k])
    ensures CountAll(m, p) < |m|
  {
    var l := [OutFlow(0, p, Flow(0, 0))];
    CountAllAfter(m, i, l, p);
    CountOf(m[i], p);
    CountAllOf(m[i := l], p);
    assert l[0].processor == p;
    CountOf(l, p);
  }

  /** A list with an entry for a processor. */
  ghost function WithEntry(l: seq<OutFlow>, inFlow: Flow, ID: nat, p: Processor): (r: seq<OutFlow>)
    ensures Uses(r, p)
  {
    if Uses(l, p) then l
    else
      var r := l + [OutFlow(ID, p, inFlow)];
      assert r[|l|].processor == p;
      r
  }

  /** Entries are for the processors of a set, and no list has two for the same. */
  ghost predicate Closed(m: seq<seq<OutFlow>>, ps: set<Processor>) {
    && (forall i | 0 <= i < |m| :: NoneTwice(m[i]))
    && (forall i, k | 0 <= i < |m| && 0 <= k < |m[i]| :: m[i][k].processor in ps)
  }

  /** Adding an entry to a list without one for the processor adds one to its count and to no other. */
  lemma EntryAdded(m: seq<seq<OutFlow>>, ps: set<Processor>, i: nat, o: OutFlow)
    requires i < |m| && Closed(m, ps) && o.processor in ps && !Uses(m[i], o.processor)
    ensures var m' := m[i := m[i] + [o]];
            Closed(m', ps) && forall q :: CountAll(m', q) == CountAll(m, q) + if q == o.processor then 1 else 0
  {
    var m' := m[i := m[i] + [o]];
    forall q
      ensures CountAll(m', q) == CountAll(m, q) + if q == o.processor then 1 else 0
    {
      CountAllAfter(m, i, m[i] + [o], q);
      CountAfterAdd(m[i], o, q);
    }
  }

  /** Removing an entry takes one off its processor's count and off no other; at none the processor is in no list. */
  lemma EntryRemoved(m: seq<seq<OutFlow>>, ps: set<Processor>, i: nat, k: nat)
    requires i < |m| && k < |m[i]| && Closed(m, ps)
    ensures var m', p := m[i := m[i][..k] + m[i][k + 1..]], m[i][k].processor;
            && p in ps && Closed(m', ps) && (CountAll(m', p) == 0 ==> Closed(m', ps - {p}))
            && forall q :: CountAll(m', q) == CountAll(m, q) - if q == p then 1 else 0
  {
    var l' := m[i][..k] + m[i][k + 1..];
    var m', p := m[i := l'], m[i][k].processor;
    forall q
      ensures CountAll(m', q) == CountAll(m, q) - if q == p then 1 else 0
    {
      CountAllAfter(m, i, l', q);
      CountWithout(m[i], k, q);
    }
    CountAllOf(m', p);
    if CountAll(m', p) == 0 {
      forall j, x | 0 <= j < |m'| && 0 <= x < |m'[j]|
        ensures m'[j][x].processor != p
      {
        assert !Uses(m'[j], p);
      }
    }
  }

  // ---------- flowProcessor_t ----------

  class FlowProcessor {
    /** The flow lists, made when they are first asked for. */
    const outFlowMatrix: array<Option<seq<OutFlow>>>
    /** The processors that APP runs for this flow processor. */
    var tasks: set<Processor>

    ghost function Lists(): (m: seq<seq<OutFlow>>)
      reads outFlowMatrix
      ensures |m| == outFlowMatrix.Length
    {
      seq(outFlowMatrix.Length, i requires 0 <= i < outFlowMatrix.Length reads outFlowMatrix =>
        if outFlowMatrix[i].None? then [] else outFlowMatrix[i].value)
    }

    /** Each running processor counts its entries, and entries are for running processors. */
    ghost predicate Consistent()
      reads this, outFlowMatrix, tasks
    {
      && outFlowMatrix.Length == MAX_FLOW_LEN
      && Closed(Lists(), tasks)
      && (forall p | p in tasks :: p.referenceCount == CountAll(Lists(), p))
    }

    /** Moreover no processor runs without an entry. */
    ghost predicate Valid()
      reads this, outFlowMatrix, tasks
    {
      Consistent() && forall p | p in tasks :: p.referenceCount >= 1
    }

    constructor ()
      ensures Valid() && fresh(outFlowMatrix) && tasks == {}
      ensures forall i | 0 <= i < MAX_FLOW_LEN :: Lists()[i] == []
    {
      outFlowMatrix := new Option<seq<OutFlow>>[MAX_FLOW_LEN](_ => None);
      tasks := {};
      new;
    }

    /** getProcessorArray: making a list changes nothing that anyone sees. */
    method GetProcessorArray(inFlow: Flow) returns (outFlowArray: seq<OutFlow>)
      requires inFlow.ID < outFlowMatrix.Length
      modifies outFlowMatrix
      ensures Lists() == old(Lists()) && outFlowArray == Lists()[inFlow.ID]
      ensures outFlowMatrix[inFlow.ID].Some?
    {
      if outFlowMatrix[inFlow.ID].None? {
        outFlowMatrix[inFlow.ID] := Some([]);
      }
      return outFlowMatrix[inFlow.ID].value;
    }

    /** A processor's constructor hands it to APP. */
    method NewProcessor(PT: int) returns (p: Processor)
      requires Consistent()
      modifies this
      ensures Consistent() && fresh(p) && p.PT == PT && p.targetArray == [] && p.referenceCount == 0
      ensures tasks == old(tasks) + {p}
    {
      p := new Processor(PT);
      CountAllOf(Lists(), p);
      tasks := tasks + {p};
    }

    /** Takes a reference and puts the entry at the end of the flow's list. */
    method AddEntry(inFlow: Flow, ID: nat, p: Processor)
      requires Consistent() && inFlow.ID < MAX_FLOW_LEN && outFlowMatrix[inFlow.ID].Some?
      requires p in tasks && !Uses(Lists()[inFlow.ID], p)
      requires forall q | q in tasks && q != p :: q.referenceCount >= 1
      modifies outFlowMatrix, p`referenceCount
      ensures Valid() && p.referenceCount == old(p.referenceCount) + 1
      ensures Lists() == old(Lists())[inFlow.ID := old(Lists())[inFlow.ID] + [OutFlow(ID, p, inFlow)]]
    {
      hide Count, CountAll, Closed, NoneTwice;
      ghost var m, o := Lists(), OutFlow(ID, p, inFlow);
      EntryAdded(m, tasks, inFlow.ID, o);
      OneMoreFits(m, tasks, inFlow.ID, p);
      var _ := p.AddRef();
      outFlowMatrix[inFlow.ID] := Some(outFlowMatrix[inFlow.ID].value + [OutFlow(ID, p, inFlow)]);
      assert Lists() == m[inFlow.ID := m[inFlow.ID] + [o]];
    }

    static lemma OneMoreFits(m: seq<seq<OutFlow>>, ps: set<Processor>, i: nat, p: Processor)
      requires |m| == MAX_FLOW_LEN && Closed(m, ps) && i < |m| && !Uses(m[i], p)
      ensures CountAll(m, p) + 1 < 0x10000
    {
      RoomForOneMore(m, i, p);
    }

    /** Takes a processor's entry out of the flow's list; the last reference ends the processor. */
    method RemoveEntry(inFlow: Flow, p: Processor)
      requires Valid() && inFlow.ID < MAX_FLOW_LEN && outFlowMatrix[inFlow.ID].Some?
      requires Uses(Lists()[inFlow.ID], p)
      modifies this, outFlowMatrix, p`referenceCount
      ensures Valid() && p.referenceCount == old(p.referenceCount) - 1
      ensures Lists() == old(Lists())[inFlow.ID := Without(old(Lists())[inFlow.ID], p)]
      ensures tasks == if old(p.referenceCount) == 1 then old(tasks) - {p} else old(tasks)
    {
      hide Count, CountAll, Closed, NoneTwice;
      ghost var m, l := Lists(), Lists()[inFlow.ID];
      var i := 0;
      while p != outFlowMatrix[inFlow.ID].value[i].processor
        invariant i < |l| && forall k | 0 <= k < i :: l[k].processor != p
        decreases |l| - i
      {
        i := i + 1;
      }
      EntryRemoved(m, tasks, inFlow.ID, i);
      WithoutAt(l, i);
      var list := outFlowMatrix[inFlow.ID].value;
      outFlowMatrix[inFlow.ID] := Some(list[..i] + list[i + 1..]);
      var count := p.DecRef();
      assert Lists() == m[inFlow.ID := l[..i] + l[i + 1..]];
      if count == 0 {
        tasks := tasks - {p};
      }
    }
  }

  /** A list without a processor's entry. */
  function Without(l: seq<OutFlow>, p: Processor): seq<OutFlow> {
    if l == [] then [] else if l[0].processor == p then l[1..] else [l[0]] + Without(l[1..], p)
  }

  lemma {:induction false} WithoutAt(l: seq<OutFlow>, i: nat)
    requires i < |l| && forall k | 0 <= k < i :: l[k].processor != l[i].processor
    ensures Without(l, l[i].processor) == l[..i] + l[i + 1..]
  {
    if i > 0 {
      WithoutAt(l[1..], i - 1);
      assert [l[0]] + (l[1..][..i - 1] + l[1..][i..]) == l[..i] + l[i + 1..];
    }
  }

  /** Taking out the entry that was asked for gives the list back exactly when it was not there before. */
  lemma WithoutAfterWith(l: seq<OutFlow>, inFlow: Flow, ID: nat, p: Processor)
    ensures Without(WithEntry(l, inFlow, ID, p), p) == l <==> !Uses(l, p)
  {
    if Uses(l, p) {
      WithoutIsShorter(l, p);
    } else {
      WithoutAt(l + [OutFlow(ID, p, inFlow)], |l|);
    }
  }

  lemma {:induction false} WithoutIsShorter(l: seq<OutFlow>, p: Processor)
    requires Uses(l, p)
    ensures |Without(l, p)| == |l| - 1
  {
    var k :| 0 <= k < |l| && l[k].processor == p;
    if l[0].processor != p {
      assert l[1..][k - 1].processor == p;
      WithoutIsShorter(l[1..], p);
    }
  }
}
