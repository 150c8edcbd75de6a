/** The RTCP receiver table (components/MCU/app/RTCPRecv.cc). */
module RtcpRecv {
  import opened Options
  import opened LinearProbing
  import opened BackShift
  import opened AddressHash

  /** addrReport_t: the address, the payload type and the report blocks received so far. */
  datatype Report = Report(addr: Addr, PT: int, rrList: seq<int>)

  function Hash(): (hs: Hashing<Report, Addr>)
    ensures hs.Valid()
  {
    Hashing((r: Report) => r.addr, (a: Addr) => GetIndex(a))
  }

  // ---------- What the two operations do ----------

  /** A new address gets an empty report where its probe ended; a known one changes nothing. */
  ghost predicate Added(t: Table<Report>, a: Addr, PT: int, t': Table<Report>) {
    exists p | 0 <= p < SLOTS :: FoundAt(Hash(), t, a, p) &&
      t' == if t[p].Some? then t else t[p := Some(Report(a, PT, []))]
  }

  /**
   An unknown address changes nothing; a known one is taken out and the entries
   after it are pulled back up to the first slot that is free or holds an entry
   in its own home.
   */
  ghost predicate Removed(t: Table<Report>, a: Addr, t': Table<Report>) {
    exists p | 0 <= p < SLOTS :: FoundAt(Hash(), t, a, p) &&
      if t[p].None? then t' == t else exists j: nat :: StopsAt(Hash(), t, p, j) && t' == Pull(t, p, j - 1)
  }

  /** In a well placed table with a free slot, deleteReceiver does that. */
  lemma DeletedIsRemoved(t: Table<Report>, a: Addr, free: nat)
    requires WellPlaced(Hash(), t) && free < SLOTS && t[free].None?
    ensures Removed(t, a, Deleted(Hash(), t, a))
  {
    hide GetIndex, Pull, Scan, FoundAt;
    assert Stops(Hash(), t, a, free);
    ProbeEnds(Hash(), t, a);
    var p := Probe(Hash(), t, a);
    if t[p].Some? {
      FreeSlotSettles(Hash(), t, p, free);
      DeletedIsPulled(Hash(), t, a, p);
    }
  }

  // ---------- Agreement with a map ----------

  function MapAdd(m: map<Addr, Report>, a: Addr, PT: int): map<Addr, Report> {
    if a in m then m else m[a := Report(a, PT, [])]
  }

  lemma AddAgrees(t: Table<Report>, m: map<Addr, Report>, a: Addr, PT: int, t': Table<Report>)
    requires WellPlaced(Hash(), t) && Agrees(Hash(), t, m) && Added(t, a, PT, t')
    ensures WellPlaced(Hash(), t') && Agrees(Hash(), t', MapAdd(m, a, PT))
  {
    hide GetIndex, WellPlaced, FoundAt, Agrees;
    var p: nat :| p < SLOTS && FoundAt(Hash(), t, a, p)
                  && t' == if t[p].Some? then t else t[p := Some(Report(a, PT, []))];
    LookupAgrees(Hash(), t, m, a, p);
    if t[p].None? {
      InsertAgrees(Hash(), t, m, Report(a, PT, []), p);
    }
  }

  /** The condition under which deleting an address is right: no other entry was displaced past the stop. */
  ghost predicate SafeToRemove(t: Table<Report>, a: Addr) {
    forall p: nat, j: nat | Holds(Hash(), t, a, p) && StopsAt(Hash(), t, p, j) :: NonePassed(Hash(), t, p, j)
  }

  lemma StopUnique(t: Table<Report>, p: nat, i: nat, j: nat)
    requires p < SLOTS && StopsAt(Hash(), t, p, i) && StopsAt(Hash(), t, p, j)
    ensures i == j
  {
  }

  /**
   Deleting takes out exactly the address given, whatever the table; and every
   remaining address stays reachable if and only if the deletion was safe.
   */
  lemma RemoveAgrees(t: Table<Report>, m: map<Addr, Report>, a: Addr, t': Table<Report>)
    requires WellPlaced(Hash(), t) && Agrees(Hash(), t, m) && Removed(t, a, t')
    ensures Agrees(Hash(), t', m - {a})
    ensures WellPlaced(Hash(), t') <==> SafeToRemove(t, a)
  {
    hide GetIndex, Pull;
    var p: nat :| p < SLOTS && FoundAt(Hash(), t, a, p) &&
      if t[p].None? then t' == t else exists j: nat :: StopsAt(Hash(), t, p, j) && t' == Pull(t, p, j - 1);
    LookupAgrees(Hash(), t, m, a, p);
    ProbeDecides(Hash(), t, a, p);
    if t[p].None? {
      assert m - {a} == m;
    } else {
      var j: nat :| StopsAt(Hash(), t, p, j) && t' == Pull(t, p, j - 1);
      PullIsRightIff(Hash(), t, p, j);
      assert Holds(Hash(), t, a, p);
      forall i: nat | StopsAt(Hash(), t, p, i)
        ensures i == j
      {
        StopUnique(t, p, i, j);
      }
      RemovedReports(t, m, a, p, j);
    }
  }

  lemma RemovedReports(t: Table<Report>, m: map<Addr, Report>, a: Addr, p: nat, j: nat)
    requires WellPlaced(Hash(), t) && Agrees(Hash(), t, m) && p < SLOTS && t[p].Some? && t[p].value.addr == a
    requires StopsAt(Hash(), t, p, j)
    ensures Agrees(Hash(), Pull(t, p, j - 1), m - {a})
  {
    hide GetIndex, Pull;
    var t' := Pull(t, p, j - 1);
    forall q | 0 <= q < SLOTS && t'[q].Some?
      ensures t'[q].value.addr in m - {a} && (m - {a})[t'[q].value.addr] == t'[q].value
    {
      PullKeepsOthers(Hash(), t, p, j - 1, t'[q].value);
    }
    forall b | b in m - {a}
      ensures exists q | 0 <= q < SLOTS :: t'[q] == Some(m[b])
    {
      PullKeepsOthers(Hash(), t, p, j - 1, m[b]);
    }
  }

  /** With homes that do not decrease along a run every deletion is safe, and the order remains. */
  lemma InOrderRemoval(t: Table<Report>, a: Addr, t': Table<Report>)
    requires WellPlaced(Hash(), t) && HomesInOrder(Hash(), t) && Removed(t, a, t')
    ensures SafeToRemove(t, a)
    ensures WellPlaced(Hash(), t') && HomesInOrder(Hash(), t')
  {
    hide GetIndex, Pull, HomesInOrder, NonePassed;
    var p: nat :| p < SLOTS && FoundAt(Hash(), t, a, p) &&
      if t[p].None? then t' == t else exists j: nat :: StopsAt(Hash(), t, p, j) && t' == Pull(t, p, j - 1);
    forall q: nat, j: nat | Holds(Hash(), t, a, q) && StopsAt(Hash(), t, q, j)
      ensures NonePassed(Hash(), t, q, j)
    {
      InOrderDeletes(Hash(), t, q, j);
      PullIsRightIff(Hash(), t, q, j);
    }
    if t[p].Some? {
      var j: nat :| StopsAt(Hash(), t, p, j) && t' == Pull(t, p, j - 1);
      InOrderDeletes(Hash(), t, p, j);
    }
  }

  // ---------- Whole runs ----------

  datatype Op = Add(addr: Addr, PT: int) | Remove(addr: Addr)

  /** The operations called so far, each with the table it left. */
  datatype Run = Start | Then(before: Run, op: Op, after: seq<Option<Report>>)

  function Last(run: Run): seq<Option<Report>> {
    if run.Start? then NoEntries() else run.after
  }

  ghost predicate StepOk(t: Table<Report>, op: Op, t': Table<Report>) {
    if op.Add? then Added(t, op.addr, op.PT, t')
    else t' == Deleted(Hash(), t, op.addr) && SafeToRemove(t, op.addr) && exists p | 0 <= p < SLOTS :: t[p].None?
  }

  /** Every step did what its operation does, and every deletion was safe and from a table that was not full. */
  ghost predicate IsRun(run: Run) {
    run.Then? ==>
      IsRun(run.before) && |Last(run.before)| == SLOTS && |run.after| == SLOTS &&
      StepOk(Last(run.before), run.op, run.after)
  }

  function MapAfter(run: Run): map<Addr, Report> {
    if run.Start? then map[]
    else match run.op
      case Add(a, PT) => MapAdd(MapAfter(run.before), a, PT)
      case Remove(a) => MapAfter(run.before) - {a}
  }

  /** After any such run every address stored is reachable and the table is the map built by the same operations. */
  lemma {:induction false} RunAgrees(run: Run)
    requires IsRun(run)
    ensures |Last(run)| == SLOTS
    ensures WellPlaced(Hash(), Last(run)) && Agrees(Hash(), Last(run), MapAfter(run))
  {
    hide GetIndex, WellPlaced, Agrees, Added, Removed, SafeToRemove, Deleted;
    if run.Start? {
      EmptyIsWellPlaced<Report, Addr>(Hash());
    } else {
      RunAgrees(run.before);
      match run.op
      case Add(a, PT) => AddAgrees(Last(run.before), MapAfter(run.before), a, PT, run.after);
      case Remove(a) =>
        var t: Table<Report> := Last(run.before);
        var free: nat :| free < SLOTS && t[free].None?;
        DeletedIsRemoved(t, a, free);
        RemoveAgrees(t, MapAfter(run.before), a, run.after);
    }
  }

  // ---------- A deletion that goes wrong ----------

  lemma SmallIndices()
    ensures GetIndex(IPv4([0, 0, 0, 0])) == 0
    ensures GetIndex(IPv4([1, 0, 0, 0])) == 1
    ensures GetIndex(IPv4([2, 1, 0, 0])) == 0
  {
    hide GetIndex;
    HomeOfFour([0, 0, 0, 0]);
    HomeOfFour([1, 0, 0, 0]);
    HomeOfFour([2, 1, 0, 0]);
  }

  /**
   0.0.0.0, 1.0.0.0 and 2.1.0.0 go to slots 0, 1 and 2; the last has home 0.
   Deleting the first stops at once, because 1.0.0.0 is at home, and then
   2.1.0.0 is still stored but a lookup for it ends in the empty slot 0.
   */
  lemma UnsafeRemovalLosesAnAddress(t1: Table<Report>, t2: Table<Report>, t3: Table<Report>)
    requires var a, b, c: Addr := IPv4([0, 0, 0, 0]), IPv4([1, 0, 0, 0]), IPv4([2, 1, 0, 0]);
             Added(NoEntries(), a, 0, t1) && Added(t1, b, 0, t2) && Added(t2, c, 0, t3)
    ensures var a, c: Addr, t4 := IPv4([0, 0, 0, 0]), IPv4([2, 1, 0, 0]), Deleted(Hash(), t3, IPv4([0, 0, 0, 0]));
            && t4[2] == Some(Report(c, 0, [])) && t4[0].None?
            && FoundAt(Hash(), t4, c, 0) && !WellPlaced(Hash(), t4)
  {
    var a, b, c: Addr := IPv4([0, 0, 0, 0]), IPv4([1, 0, 0, 0]), IPv4([2, 1, 0, 0]);
    SmallIndices();
    hide GetIndex;
    assert FoundAt(Hash(), NoEntries(), a, 0);
    AddedAt(NoEntries(), a, 0, t1);
    assert FoundAt(Hash(), t1, b, 1);
    AddedAt(t1, b, 1, t2);
    assert a != c && b != c && a != b;
    assert Slot(0, 0) == 0 && Slot(0, 1) == 1;
    assert FoundAt(Hash(), t2, c, 2);
    AddedAt(t2, c, 2, t3);
    FirstDeleted(t3);
  }

  lemma FirstDeleted(t3: Table<Report>)
    requires var a, b, c: Addr := IPv4([0, 0, 0, 0]), IPv4([1, 0, 0, 0]), IPv4([2, 1, 0, 0]);
             t3 == NoEntries()[0 := Some(Report(a, 0, []))][1 := Some(Report(b, 0, []))][2 := Some(Report(c, 0, []))]
    ensures var a, c: Addr, t4 := IPv4([0, 0, 0, 0]), IPv4([2, 1, 0, 0]), Deleted(Hash(), t3, IPv4([0, 0, 0, 0]));
            && t4[2] == Some(Report(c, 0, [])) && t4[0].None?
            && FoundAt(Hash(), t4, c, 0) && !WellPlaced(Hash(), t4)
  {
    var a, b, c: Addr := IPv4([0, 0, 0, 0]), IPv4([1, 0, 0, 0]), IPv4([2, 1, 0, 0]);
    SmallIndices();
    hide GetIndex;
  }

  lemma AddedAt(t: Table<Report>, a: Addr, p: nat, t': Table<Report>)
    requires p < SLOTS && FoundAt(Hash(), t, a, p) && t[p].None? && Added(t, a, 0, t')
    ensures t' == t[p := Some(Report(a, 0, []))]
  {
    var q: nat :| q < SLOTS && FoundAt(Hash(), t, a, q)
                  && t' == if t[q].Some? then t else t[q := Some(Report(a, 0, []))];
    FoundAtUnique(Hash(), t, a, p, q);
  }

  class RTCPRecv {
    const addrReportArr: array<Option<Report>>

    ghost predicate Valid() {
      addrReportArr.Length == SLOTS
    }

    ghost function Reports(): Table<Report>
      reads this, addrReportArr
      requires Valid()
    {
      addrReportArr[..]
    }

    constructor ()
      ensures Valid() && fresh(addrReportArr)
      ensures WellPlaced(Hash(), Reports()) && Keys(Hash(), Reports()) == {}
    {
      addrReportArr := new Option<Report>[SLOTS](_ => None);
      new;
      EmptyIsWellPlaced(Hash());
      assert addrReportArr[..] == NoEntries<Report>();
    }

    /** getPosition: it comes back as soon as a probe can end anywhere. */
    method GetPosition(addr: Addr) returns (position: nat)
      requires Valid() && CanStop(Hash(), Reports(), addr)
      ensures FoundAt(Hash(), Reports(), addr, position)
    {
      hide GetIndex;
      ghost var home := GetIndex(addr);
      position := GetIndex(addr);
      ghost var d := 0;
      ghost var end: nat :| end < SLOTS && Stops(Hash(), Reports(), addr, end);
      while addrReportArr[position].Some?
        invariant d <= Dist(home, end) && position == Slot(home, d)
        invariant forall d' | 0 <= d' < d :: !Stops(Hash(), Reports(), addr, Slot(home, d'))
        decreases SLOTS - d
      {
        if addr == addrReportArr[position].value.addr {
          break;
        }
        assert !Stops(Hash(), Reports(), addr, position);
        position := (position + 1) % SLOTS;
        d := d + 1;
      }
      assert Dist(home, position) == d;
    }

    /** addReceiver. */
    method AddReceiver(addr: Addr, PT: int)
      requires Valid() && CanStop(Hash(), Reports(), addr)
      modifies addrReportArr
      ensures Added(old(Reports()), addr, PT, Reports())
      ensures addr in old(Keys(Hash(), Reports())) && old(WellPlaced(Hash(), Reports())) ==> Reports() == old(Reports())
      ensures addr !in old(Keys(Hash(), Reports())) ==>
                exists p | 0 <= p < SLOTS ::
                  old(Reports())[p].None? && Reports() == old(Reports())[p := Some(Report(addr, PT, []))]
      ensures old(WellPlaced(Hash(), Reports())) ==> WellPlaced(Hash(), Reports())
      ensures old(WellPlaced(Hash(), Reports())) ==> Keys(Hash(), Reports()) == old(Keys(Hash(), Reports())) + {addr}
    {
      var pos := GetPosition(addr);
      ghost var before := Reports();
      ghost var r := Report(addr, PT, []);
      if addrReportArr[pos].None? {
        addrReportArr[pos] := Some(Report(addr, PT, []));
        assert Reports() == before[pos := Some(r)];
        KeysAfterInsert(Hash(), before, r, pos);
        if WellPlaced(Hash(), before) {
          FreeMeansUnknown(Hash(), before, addr, pos);
          InsertKeepsPlaces(Hash(), before, r, pos);
        }
      } else {
        assert before[pos].Some? && Hash().key(before[pos].value) == addr;
      }
    }

    /** deleteReceiver. */
    method DeleteReceiver(addr: Addr)
      requires Valid() && CanStop(Hash(), Reports(), addr)
      modifies addrReportArr
      ensures Reports() == Deleted(Hash(), old(Reports()), addr)
    {
      hide Scan;
      var pos := GetPosition(addr);
      ProbeFinds(Hash(), Reports(), addr, pos);
      if addrReportArr[pos].Some? {
        addrReportArr[pos] := None;
        assert Reports() == old(Reports())[pos := None];
        PullBack(pos);
      }
    }

    /** One step of the scan; pos2 is taken. */
    method PullOne(pos1: nat, pos2: nat)
      requires Valid() && pos1 < SLOTS && pos2 == Next(pos1) && Reports()[pos2].Some?
      modifies addrReportArr
      ensures Reports() == ScanOnce(Hash(), old(Reports()), pos1)
    {
      hide GetIndex, FoundAt;
      ghost var before := Reports();
      assert Stops(Hash(), before, before[pos2].value.addr, pos2);
      var p := GetPosition(addrReportArr[pos2].value.addr);
      ProbeFinds(Hash(), before, before[pos2].value.addr, p);
      if p == pos1 {
        addrReportArr[pos1] := addrReportArr[pos2];
        addrReportArr[pos2] := None;
        assert Reports() == before[pos1 := before[pos2]][pos2 := None];
      }
    }

    /** The scan of deleteReceiver, from the slot that was just cleared. */
    method PullBack(pos: nat)
      requires Valid() && pos < SLOTS
      modifies addrReportArr
      ensures Reports() == Scan(Hash(), old(Reports()), pos, 0)
    {
      hide GetIndex, ScanOnce;
      for k := 0 to SLOTS
        invariant Scan(Hash(), Reports(), pos, k) == Scan(Hash(), old(Reports()), pos, 0)
      {
        var pos1 := (pos + k) % SLOTS;
        var pos2 := (pos1 + 1) % SLOTS;
        assert pos1 == Slot(pos, k) && pos2 == Next(pos1);
        if addrReportArr[pos2].None? {
          return;
        }
        PullOne(pos1, pos2);
      }
    }
  }
}
