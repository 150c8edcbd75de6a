/** The switcher: one processor for each payload type, shared by all flows (components/MCU/app/switch.cc). */
module Switcher {
  import opened FlowProcessor

  class Switcher {
    const flows: FlowProcessor

    ghost predicate Valid()
      reads flows, flows.outFlowMatrix, flows.tasks
    {
      && flows.Valid()
      && forall p, q | p in flows.tasks && q in flows.tasks && p.PT == q.PT :: p == q
    }

    constructor ()
      ensures Valid() && fresh(flows) && fresh(flows.outFlowMatrix) && flows.tasks == {}
    {
      flows := new FlowProcessor();
    }

    /** A running processor of a payload type, if any. */
    ghost predicate Runs(PT: int, p: Processor)
      reads flows
    {
      p in flows.tasks && p.PT == PT
    }

    /** getValidProcessor within one list. */
    static method FindIn(inFlow: Flow, outFlowArray: seq<OutFlow>) returns (p: Processor?)
      ensures p == null ==> forall k | 0 <= k < |outFlowArray| :: outFlowArray[k].processor.PT != inFlow.PT
      ensures p != null ==> p.PT == inFlow.PT && Uses(outFlowArray, p)
    {
      for i := 0 to |outFlowArray|
        invariant forall k | 0 <= k < i :: outFlowArray[k].processor.PT != inFlow.PT
      {
        if inFlow.PT == outFlowArray[i].processor.PT {
          return outFlowArray[i].processor;
        }
      }
      return null;
    }

    /** getValidProcessor over all lists: it finds the processor of the payload type exactly when one is running. */
    method Find(inFlow: Flow) returns (p: Processor?)
      requires Valid()
      ensures p == null ==> forall q | q in flows.tasks :: q.PT != inFlow.PT
      ensures p != null ==> Runs(inFlow.PT, p)
    {
      hide Count, CountAll;
      for i := 0 to MAX_FLOW_LEN
        invariant forall j, k | 0 <= j < i && 0 <= k < |flows.Lists()[j]| ::
          flows.Lists()[j][k].processor.PT != inFlow.PT
      {
        if flows.outFlowMatrix[i].Some? {
          p := FindIn(inFlow, flows.outFlowMatrix[i].value);
          assert flows.Lists()[i] == flows.outFlowMatrix[i].value;
          if p != null {
            ghost var k :| 0 <= k < |flows.Lists()[i]| && flows.Lists()[i][k].processor == p;
            return p;
          }
        }
      }
      forall q | q in flows.tasks
        ensures q.PT != inFlow.PT
      {
        CountAllOf(flows.Lists(), q);
      }
      return null;
    }

    /**
     setFlow: the flow's list gets an entry for the payload type's processor
     unless it has one, and the processor gets the target unless it has it. A
     processor is made only when none runs for the payload type.
     */
    method SetFlow(inFlow: Flow, target: Target) returns (r: Result, ghost p: Processor)
      requires Valid() && inFlow.ID < MAX_FLOW_LEN
      modifies flows, flows.outFlowMatrix, flows.tasks
      ensures Valid() && r == S_OK && Runs(inFlow.PT, p)
      ensures if p in old(flows.tasks) then flows.tasks == old(flows.tasks)
              else fresh(p) && flows.tasks == old(flows.tasks) + {p}
      ensures (exists q | q in old(flows.tasks) :: q.PT == inFlow.PT) ==> p in old(flows.tasks)
      ensures var m := old(flows.Lists());
              flows.Lists() == m[inFlow.ID := WithEntry(m[inFlow.ID], inFlow, target.ID, p)]
      ensures p.targetArray == if p in old(flows.tasks) then WithTarget(old(p.targetArray), target) else [target]
      ensures p.referenceCount == (if p in old(flows.tasks) then old(p.referenceCount) else 0) +
                                  (if Uses(old(flows.Lists())[inFlow.ID], p) then 0 else 1)
      ensures forall q | q in old(flows.tasks) && q != p :: q.targetArray == old(q.targetArray)
    {
      hide Count, CountAll, NoneTwice;
      ghost var l := flows.Lists()[inFlow.ID];
      var outFlowArray := flows.GetProcessorArray(inFlow);
      var processor1 := Find(inFlow);
      if processor1 == null {
        processor1 := flows.NewProcessor(inFlow.PT);
        flows.AddEntry(inFlow, target.ID, processor1);
      } else {
        var processor2 := FindIn(inFlow, outFlowArray);
        if processor2 == null {
          flows.AddEntry(inFlow, target.ID, processor1);
        } else {
          assert processor2 == processor1;
        }
      }
      processor1.AddTarget(target);
      return S_OK, processor1;
    }

    /**
     unsetFlow: nothing without an entry for the payload type, or when its
     processor has no target with that ID; else the target and the entry go,
     and with its last entry the processor.
     */
    method UnsetFlow(inFlow: Flow, target: Target) returns (r: Result)
      requires Valid() && inFlow.ID < MAX_FLOW_LEN
      modifies flows, flows.outFlowMatrix, flows.tasks
      ensures Valid()
      ensures r == if exists p | p in old(flows.tasks) :: p.PT == inFlow.PT && Uses(old(flows.Lists())[inFlow.ID], p)
                   then S_OK else E_PROC_NOT_EXISTS
      ensures r == E_PROC_NOT_EXISTS ==> flows.Lists() == old(flows.Lists()) && flows.tasks == old(flows.tasks)
      ensures forall p | p in old(flows.tasks) ::
                if p.PT == inFlow.PT && Uses(old(flows.Lists())[inFlow.ID], p) then
                  && p.targetArray == WithoutID(old(p.targetArray), target.ID)
                  && if target.ID in IDs(old(p.targetArray)) then
                       && flows.Lists() == old(flows.Lists())[inFlow.ID := Without(old(flows.Lists())[inFlow.ID], p)]
                       && p.referenceCount == old(p.referenceCount) - 1
                       && flows.tasks == if old(p.referenceCount) == 1 then old(flows.tasks) - {p} else old(flows.tasks)
                     else flows.Lists() == old(flows.Lists()) && flows.tasks == old(flows.tasks)
                else p.targetArray == old(p.targetArray)
    {
      hide Count, CountAll, NoneTwice;
      var outFlowArray := flows.GetProcessorArray(inFlow);
      var processor := FindIn(inFlow, outFlowArray);
      if processor == null {
        return E_PROC_NOT_EXISTS;
      }
      var deleted := processor.DeleteTarget(target);
      if deleted == S_OK {
        flows.RemoveEntry(inFlow, processor);
      }
      return S_OK;
    }

    /**
     Unsetting what was just set restores the lists exactly when the flow had no entry for its
     payload type before.
    */
    method SetThenUnset(inFlow: Flow, target: Target)
      requires Valid() && inFlow.ID < MAX_FLOW_LEN
      modifies flows, flows.outFlowMatrix, flows.tasks
      ensures Valid()
      ensures flows.Lists() == old(flows.Lists()) <==>
              forall o | o in old(flows.Lists())[inFlow.ID] :: o.processor.PT != inFlow.PT
    {
      hide Count, CountAll, NoneTwice;
      ghost var m, l := flows.Lists(), flows.Lists()[inFlow.ID];
      var r;
      ghost var p;
      r, p := SetFlow(inFlow, target);
      assert target in p.targetArray && Uses(flows.Lists()[inFlow.ID], p);
      WithoutAfterWith(l, inFlow, target.ID, p);
      assert Uses(l, p) <==> exists o | o in l :: o.processor.PT == inFlow.PT;
      r := UnsetFlow(inFlow, target);
      assert flows.Lists() == m[inFlow.ID := Without(WithEntry(l, inFlow, target.ID, p), p)];
      assert m[inFlow.ID := l] == m;
    }

    /**
     One flow with two targets: unsetting it for the first ends the processor, whose only reference
     it had, while the second target is still there.
     */
    method OtherTargetIsCutOff(a: Flow, t: Target, u: Target) returns (ghost p: Processor)
      requires Valid() && a.ID < MAX_FLOW_LEN && t.ID != u.ID
      requires forall q | q in flows.tasks :: q.PT != a.PT
      modifies flows, flows.outFlowMatrix, flows.tasks
      ensures Valid() && fresh(p) && p !in flows.tasks && p.targetArray == [u]
      ensures flows.Lists() == old(flows.Lists()) && flows.tasks == old(flows.tasks)
    {
      hide Count, CountAll, NoneTwice;
      ghost var m, l := flows.Lists(), flows.Lists()[a.ID];
      var r;
      ghost var q;
      r, p := SetFlow(a, t);
      assert !Uses(l, p);
      WithoutAfterWith(l, a, t.ID, p);
      r, q := SetFlow(a, u);
      assert q == p && p.targetArray == [t, u] && p.referenceCount == 1;
      assert flows.Lists()[a.ID] == WithEntry(l, a, t.ID, p);
      r := UnsetFlow(a, t);
      assert flows.Lists() == m[a.ID := Without(WithEntry(l, a, t.ID, p), p)];
      assert m[a.ID := l] == m;
    }

    /**
     Two flows of one payload type with the same target: unsetting both takes
     the target from the processor but leaves the second flow's entry, and so
     a processor that runs with no target at all.
     */
    method SharedTargetLeavesEntry(a: Flow, b: Flow, target: Target) returns (ghost p: Processor)
      requires Valid() && a.ID < MAX_FLOW_LEN && b.ID < MAX_FLOW_LEN && a.ID != b.ID && a.PT == b.PT
      requires forall q | q in flows.tasks :: q.PT != a.PT
      modifies flows, flows.outFlowMatrix, flows.tasks
      ensures Valid() && p in flows.tasks && fresh(p)
      ensures p.targetArray == [] && p.referenceCount == 1 && Uses(flows.Lists()[b.ID], p)
    {
      hide Count, CountAll, NoneTwice;
      var r;
      ghost var q;
      r, p := SetFlow(a, target);
      r, q := SetFlow(b, target);
      assert q == p && p.targetArray == [target] && p.referenceCount == 2;
      assert Uses(flows.Lists()[a.ID], p) && Uses(flows.Lists()[b.ID], p);
      r := UnsetFlow(a, target);
      r := UnsetFlow(b, target);
    }
  }
}
