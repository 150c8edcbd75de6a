/**
 The mixer: one processor for each destination and payload type, shared by all flows
 (components/MCU/app/mixer.cc).
*/
module Mixer {
  import opened FlowProcessor

  /** isValid: the processor sends this payload type to a target with the flow's ID. */
  ghost predicate Serves(p: Processor, outFlow: Flow)
    reads p
  {
    p.PT == outFlow.PT && outFlow.ID in IDs(p.targetArray)
  }

  class Mixer {
    const flows: FlowProcessor

    ghost predicate Valid()
      reads flows, flows.outFlowMatrix, flows.tasks
    {
      flows.Valid()
    }

    /** No two processors send the same payload type to the same destination. */
    ghost predicate OnePerDestination()
      reads flows, flows.tasks
    {
      forall p, q | p in flows.tasks && q in flows.tasks && p != q && p.PT == q.PT ::
        IDs(p.targetArray) !! IDs(q.targetArray)
    }

    constructor ()
      ensures Valid() && OnePerDestination() && fresh(flows) && fresh(flows.outFlowMatrix) && flows.tasks == {}
    {
      flows := new FlowProcessor();
    }

    static method IsValid(p: Processor, outFlow: Flow) returns (valid: bool)
      ensures valid == Serves(p, outFlow)
    {
      if outFlow.PT == p.PT {
        for i := 0 to |p.targetArray|
          invariant forall k | 0 <= k < i :: p.targetArray[k].ID != outFlow.ID
        {
          if p.targetArray[i].ID == outFlow.ID {
            assert p.targetArray[i] in p.targetArray;
            return true;
          }
        }
      }
      return false;
    }

    /** getValidProcessor within one list: the first entry whose processor serves the flow. */
    static method FindIn(outFlow: Flow, outFlowArray: seq<OutFlow>) returns (p: Processor?)
      ensures p == null <==> forall o | o in outFlowArray :: !Serves(o.processor, outFlow)
      ensures p != null ==> Serves(p, outFlow) && First(outFlow, outFlowArray, p)
    {
      for i := 0 to |outFlowArray|
        invariant forall k | 0 <= k < i :: !Serves(outFlowArray[k].processor, outFlow)
      {
        var valid := IsValid(outFlowArray[i].processor, outFlow);
        if valid {
          assert outFlowArray[i] in outFlowArray;
          return outFlowArray[i].processor;
        }
      }
      return null;
    }

    static ghost predicate First(outFlow: Flow, l: seq<OutFlow>, p: Processor)
      reads set o | o in l :: o.processor
    {
      exists k | 0 <= k < |l| :: l[k].processor == p && forall j | 0 <= j < k :: !Serves(l[j].processor, outFlow)
    }

    /** getValidProcessor over all lists: it finds one exactly when one is running. */
    method Find(outFlow: Flow) returns (p: Processor?)
      requires Valid()
      ensures p == null ==> forall q | q in flows.tasks :: !Serves(q, outFlow)
      ensures p != null ==> p in flows.tasks && Serves(p, outFlow)
    {
      hide Count, CountAll;
      for i := 0 to MAX_FLOW_LEN
        invariant forall j, k | 0 <= j < i && 0 <= k < |flows.Lists()[j]| ::
          !Serves(flows.Lists()[j][k].processor, outFlow)
      {
        if flows.outFlowMatrix[i].Some? {
          p := FindIn(outFlow, flows.outFlowMatrix[i].value);
          assert flows.Lists()[i] == flows.outFlowMatrix[i].value;
          if p != null {
            ghost var k :| 0 <= k < |flows.Lists()[i]| && flows.Lists()[i][k].processor == p;
            return p;
          }
        }
      }
      forall q | q in flows.tasks
        ensures !Serves(q, outFlow)
      {
        CountAllOf(flows.Lists(), q);
      }
      return null;
    }

    /**
     The first half of setFlow: looks for a processor that serves the target with
     the target's own payload type, and makes one for the payload type given when
     there is none; the flow's list gets an entry unless it has a serving one.
     */
    method Bind(inFlow: Flow, target: Target, PT: int) returns (p: Processor)
      requires Valid() && inFlow.ID < MAX_FLOW_LEN
      modifies flows, flows.outFlowMatrix, flows.tasks`referenceCount
      ensures Valid() && p in flows.tasks
      ensures if p in old(flows.tasks) then
                flows.tasks == old(flows.tasks) && old(Serves(p, Flow(target.PT, target.ID)))
              else fresh(p) && p.PT == PT && p.targetArray == [] && flows.tasks == old(flows.tasks) + {p}
      ensures p in old(flows.tasks) <==> exists q | q in old(flows.tasks) :: old(Serves(q, Flow(target.PT, target.ID)))
      ensures var l := old(flows.Lists())[inFlow.ID];
              flows.Lists() == old(flows.Lists())[inFlow.ID :=
                if exists o | o in l :: old(Serves(o.processor, Flow(target.PT, target.ID))) then l
                else l + [OutFlow(target.ID, p, inFlow)]]
    {
      hide Count, CountAll, NoneTwice;
      var outFlow := Flow(target.PT, target.ID);
      var outFlowArray := flows.GetProcessorArray(inFlow);
      var mixProcessor1 := Find(outFlow);
      if mixProcessor1 == null {
        mixProcessor1 := flows.NewProcessor(PT);
        flows.AddEntry(inFlow, target.ID, mixProcessor1);
      } else {
        var mixProcessor2 := FindIn(outFlow, outFlowArray);
        if mixProcessor2 == null {
          flows.AddEntry(inFlow, target.ID, mixProcessor1);
        }
      }
      return mixProcessor1;
    }

    /** setFlow: the processor found or made gets the target, and the SSRC unless that is zero. */
    method SetFlow(inFlow: Flow, target: Target, PT: int, SSRC: bv32) returns (r: Result, ghost p: Processor)
      requires Valid() && inFlow.ID < MAX_FLOW_LEN
      modifies flows, flows.outFlowMatrix, flows.tasks
      ensures Valid() && r == S_OK && p in flows.tasks
      ensures if p in old(flows.tasks) then
                flows.tasks == old(flows.tasks) && old(Serves(p, Flow(target.PT, target.ID)))
              else fresh(p) && p.PT == PT && flows.tasks == old(flows.tasks) + {p}
      ensures p in old(flows.tasks) <==> exists q | q in old(flows.tasks) :: old(Serves(q, Flow(target.PT, target.ID)))
      ensures var l := old(flows.Lists())[inFlow.ID];
              flows.Lists() == old(flows.Lists())[inFlow.ID :=
                if exists o | o in l :: old(Serves(o.processor, Flow(target.PT, target.ID))) then l
                else l + [OutFlow(target.ID, p, inFlow)]]
      ensures p.targetArray == if p in old(flows.tasks) then WithTarget(old(p.targetArray), target) else [target]
      ensures SSRC != 0 ==> p.SSRC == SSRC
      ensures forall q | q in old(flows.tasks) ::
                && (q != p ==> q.targetArray == old(q.targetArray))
                && (q != p || SSRC == 0 ==> q.SSRC == old(q.SSRC))
    {
      hide Count, CountAll, NoneTwice, Serves;
      var mixProcessor1 := Bind(inFlow, target, PT);
      mixProcessor1.AddTarget(target);
      if SSRC != 0 {
        mixProcessor1.SetSSRC(SSRC);
      }
      return S_OK, mixProcessor1;
    }

    /**
     unsetFlow: the flow's first entry that serves the target goes, and with its last entry the
     processor; targets stay. So there stays one processor for each destination.
    */
    method UnsetFlow(inFlow: Flow, target: Target) returns (r: Result, ghost p: Processor?)
      requires Valid() && inFlow.ID < MAX_FLOW_LEN
      modifies flows, flows.outFlowMatrix, flows.tasks
      ensures Valid()
      ensures var l := old(flows.Lists())[inFlow.ID];
              r == if exists o | o in l :: old(Serves(o.processor, Flow(target.PT, target.ID)))
                   then S_OK else E_PROC_NOT_EXISTS
      ensures r == E_PROC_NOT_EXISTS ==> flows.Lists() == old(flows.Lists()) && flows.tasks == old(flows.tasks)
      ensures r == S_OK ==>
                && p in old(flows.tasks) && old(First(Flow(target.PT, target.ID), flows.Lists()[inFlow.ID], p))
                && old(Serves(p, Flow(target.PT, target.ID)))
                && flows.Lists() == old(flows.Lists())[inFlow.ID := Without(old(flows.Lists())[inFlow.ID], p)]
                && p.referenceCount == old(p.referenceCount) - 1
                && flows.tasks == if old(p.referenceCount) == 1 then old(flows.tasks) - {p} else old(flows.tasks)
      ensures forall q | q in old(flows.tasks) :: q.targetArray == old(q.targetArray)
      ensures old(OnePerDestination()) ==> OnePerDestination()
    {
      hide Count, CountAll, NoneTwice;
      var outFlowArray := flows.GetProcessorArray(inFlow);
      var mixProcessor := FindIn(Flow(target.PT, target.ID), outFlowArray);
      if mixProcessor == null {
        return E_PROC_NOT_EXISTS, null;
      }
      flows.RemoveEntry(inFlow, mixProcessor);
      return S_OK, mixProcessor;
    }

    /** Some running processor serves a flow. */
    ghost predicate Served(outFlow: Flow)
      reads flows, flows.tasks
    {
      exists q | q in flows.tasks :: Serves(q, outFlow)
    }

    /**
     setFlow keeps one processor for each destination exactly when the target
     was served already or the payload type given is not sent to it yet; so
     always when it is the target's own.
     */
    method SetFlowOnce(inFlow: Flow, target: Target, PT: int, SSRC: bv32)
      requires Valid() && OnePerDestination() && inFlow.ID < MAX_FLOW_LEN
      modifies flows, flows.outFlowMatrix, flows.tasks
      ensures Valid()
      ensures OnePerDestination() <==> old(Served(Flow(target.PT, target.ID)) || !Served(Flow(PT, target.ID)))
      ensures PT == target.PT ==> OnePerDestination()
    {
      hide Count, CountAll, NoneTwice;
      var r;
      ghost var p;
      ghost var tasks := flows.tasks;
      r, p := SetFlow(inFlow, target, PT, SSRC);
      if p in tasks {
        assert IDs(p.targetArray) == old(IDs(p.targetArray));
      } else {
        assert IDs(p.targetArray) == {target.ID};
      }
    }

    /**
     A new mixer, given the same flow twice with a payload type that is not the target's, makes two
     processors that send it to one destination.
    */
    static method SecondProcessor(f: Flow, target: Target, PT: int, SSRC: bv32)
      returns (s: Mixer, ghost p: Processor, ghost q: Processor)
      requires f.ID < MAX_FLOW_LEN && PT != target.PT
      ensures s.Valid() && s.flows.tasks == {p, q} && p != q
      ensures p.PT == PT && q.PT == PT && p.targetArray == [target] && q.targetArray == [target]
      ensures !s.OnePerDestination()
    {
      hide Count, CountAll, NoneTwice;
      s := new Mixer();
      var r;
      r, p := s.SetFlow(f, target, PT, SSRC);
      r, q := s.SetFlow(f, target, PT, SSRC);
      assert target in p.targetArray && target in q.targetArray;
      assert target.ID in IDs(p.targetArray) * IDs(q.targetArray);
    }

    /** setFlow for the target's own payload type: the flow has an entry that serves it, a new one if it had none. */
    method SetOwn(inFlow: Flow, target: Target, SSRC: bv32) returns (ghost p: Processor)
      requires Valid() && inFlow.ID < MAX_FLOW_LEN
      modifies flows, flows.outFlowMatrix, flows.tasks
      ensures Valid() && Serves(p, Flow(target.PT, target.ID)) && fresh(flows.tasks - old(flows.tasks))
      ensures forall o | o in old(flows.Lists())[inFlow.ID] ::
                Serves(o.processor, Flow(target.PT, target.ID)) <==>
                old(Serves(o.processor, Flow(target.PT, target.ID)))
      ensures var l := old(flows.Lists())[inFlow.ID];
              flows.Lists() == old(flows.Lists())[inFlow.ID :=
                if exists o | o in l :: Serves(o.processor, Flow(target.PT, target.ID)) then l
                else l + [OutFlow(target.ID, p, inFlow)]]
    {
      hide Count, CountAll, NoneTwice;
      ghost var l := flows.Lists()[inFlow.ID];
      assert forall o | o in l :: o.processor in flows.tasks;
      var r;
      r, p := SetFlow(inFlow, target, target.PT, SSRC);
      assert target in p.targetArray;
    }

    /**
     Unsetting what was just set, for the target's own payload type, restores the lists exactly when
     the flow had no entry serving it before.
    */
    method SetThenUnset(inFlow: Flow, target: Target, SSRC: bv32)
      requires Valid() && inFlow.ID < MAX_FLOW_LEN
      modifies flows, flows.outFlowMatrix, flows.tasks
      ensures Valid()
      ensures flows.Lists() == old(flows.Lists()) <==>
              forall o | o in old(flows.Lists())[inFlow.ID] :: !old(Serves(o.processor, Flow(target.PT, target.ID)))
    {
      hide Count, CountAll, NoneTwice, Serves;
      ghost var outFlow, m, l := Flow(target.PT, target.ID), flows.Lists(), flows.Lists()[inFlow.ID];
      ghost var p := SetOwn(inFlow, target, SSRC);
      ghost var m', l' := flows.Lists(), flows.Lists()[inFlow.ID];
      FirstOf(outFlow, l, OutFlow(target.ID, p, inFlow));
      ghost var isNew := forall o | o in l :: !Serves(o.processor, outFlow);
      assert l' == if isNew then l + [OutFlow(target.ID, p, inFlow)] else l;
      assert exists o | o in l' :: Serves(o.processor, outFlow) by {
        if isNew {
          assert l'[|l|] in l';
        }
      }
      var r;
      ghost var q;
      r, q := UnsetFlow(inFlow, target);
      assert r == S_OK && flows.Lists() == m'[inFlow.ID := Without(l', q)];
      UpdatedTwice(m, inFlow.ID, l', Without(l', q));
      assert isNew ==> Without(l', q) == l;
      assert !isNew ==> Without(l', q) != l;
    }

    static lemma UpdatedTwice(m: seq<seq<OutFlow>>, i: nat, a: seq<OutFlow>, b: seq<OutFlow>)
      requires i < |m|
      ensures m[i := a][i := b] == m[i := b] && (m[i := b] == m <==> b == m[i])
    {
    }

    /** Only the entry just added can be the first to serve a flow that none served before. */
    static lemma FirstOf(outFlow: Flow, l: seq<OutFlow>, o: OutFlow)
      ensures (forall x | x in l :: !Serves(x.processor, outFlow)) ==>
                forall q: Processor | Serves(q, outFlow) && First(outFlow, l + [o], q) :: Without(l + [o], q) == l
      ensures forall q: Processor | First(outFlow, l, q) :: Without(l, q) != l
    {
      var l' := l + [o];
      if forall x | x in l :: !Serves(x.processor, outFlow) {
        forall q: Processor | Serves(q, outFlow) && First(outFlow, l', q)
          ensures Without(l', q) == l
        {
          assert forall j | 0 <= j < |l| :: l'[j] in l;
          var k :| 0 <= k < |l'| && l'[k].processor == q;
          assert k == |l|;
          WithoutAt(l', |l|);
        }
      }
      forall q: Processor | First(outFlow, l, q)
        ensures Without(l, q) != l
      {
        WithoutIsShorter(l, q);
      }
    }
  }
}
