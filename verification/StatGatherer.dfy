/**
 The reception statistics of a session (components/MCU/app/statGatherer.cc):
 one array of slots in which every payload type has a linear-probing table of
 its own. A slot another payload type already uses is still free for this one.
 */
module StatGatherer {
  import opened Options
  import opened LinearProbing
  import opened AddressHash
  import opened RxCounters

  const PAYLOAD_NUMBER: nat := 0x80

  type PayloadType = n: nat | n < PAYLOAD_NUMBER

  /** What setRXData reads of a packet. */
  datatype Packet = Packet(payloadType: PayloadType, dataLength: U32, totalLength: U32, sequenceNumber: U16, SSRC: U32)

  /** RXData_t: the record of one address and payload type. */
  class RXData {
    const IPAddr: Addr
    var dataLengthRX: U32
    var totalLengthRX: U32
    var receivedPkts: U32
    var receivedPktsInInterval: U16
    var lostPkts: U32
    var lostPktsInInterval: U16
    var unorderedPkts: U32
    var duplicatedPkts: U32
    var lastSequenceNo: U16
    var SNcounter: U16
    var restartInterval: bool
    var orgSSRC: U32

    /** A record filled from its first packet. */
    constructor (addr: Addr, pkt: Packet)
      ensures IPAddr == addr && dataLengthRX == pkt.dataLength && totalLengthRX == pkt.totalLength
      ensures Counts() == First(pkt.sequenceNumber) && !restartInterval && orgSSRC == pkt.SSRC
    {
      IPAddr := addr;
      dataLengthRX, totalLengthRX := pkt.dataLength, pkt.totalLength;
      receivedPkts, receivedPktsInInterval := 1, 1;
      lostPkts, lostPktsInInterval, unorderedPkts, duplicatedPkts := 0, 0, 0, 0;
      lastSequenceNo, SNcounter, restartInterval, orgSSRC := pkt.sequenceNumber, 0, false, pkt.SSRC;
    }

    ghost function Counts(): Counters
      reads this
    {
      Counters(receivedPkts, receivedPktsInInterval, lostPkts, lostPktsInInterval, unorderedPkts, duplicatedPkts,
               lastSequenceNo, SNcounter)
    }

    /** The part of setRXData for a packet that is not the first. */
    method Update(pkt: Packet)
      modifies this
      ensures dataLengthRX == (old(dataLengthRX) + pkt.dataLength) % 0x1_0000_0000
      ensures totalLengthRX == (old(totalLengthRX) + pkt.totalLength) % 0x1_0000_0000
      ensures Counts() == Counted(old(Counts()), pkt.sequenceNumber) && !restartInterval && orgSSRC == old(orgSSRC)
    {
      hide To16, To32;
      AddLengths(pkt);
      restartInterval := false;
      var sequenceNumber := pkt.sequenceNumber;
      if sequenceNumber > lastSequenceNo {
        var rest := sequenceNumber - lastSequenceNo;
        if rest == 1 {
          CountReceived(sequenceNumber);
        } else if rest > 1 && rest <= 0xffff / 2 {
          CountLost(sequenceNumber - lastSequenceNo + 1, sequenceNumber);
        } else if rest > 0xffff / 2 {
          CountUnordered();
        }
      } else if sequenceNumber == lastSequenceNo {
        duplicatedPkts := To32(duplicatedPkts + 1);
      } else {
        var rest := lastSequenceNo - sequenceNumber;
        if rest > 0xffff / 2 {
          var expected := lastSequenceNo % 0xffff;
          lastSequenceNo := To16(lastSequenceNo + 1);
          if sequenceNumber == expected {
            CountReceived(sequenceNumber);
          } else {
            CountLost(0xffff / 2 - lastSequenceNo + sequenceNumber - 1, sequenceNumber);
          }
          SNcounter := To16(SNcounter + 1);
        } else if rest < 0xffff / 2 {
          CountUnordered();
        }
      }
    }

    method AddLengths(pkt: Packet)
      modifies this`dataLengthRX, this`totalLengthRX
      ensures dataLengthRX == (old(dataLengthRX) + pkt.dataLength) % 0x1_0000_0000
      ensures totalLengthRX == (old(totalLengthRX) + pkt.totalLength) % 0x1_0000_0000
    {
      dataLengthRX := To32(dataLengthRX + pkt.dataLength);
      totalLengthRX := To32(totalLengthRX + pkt.totalLength);
    }

    method CountReceived(sequenceNumber: U16)
      modifies this`receivedPkts, this`receivedPktsInInterval, this`lastSequenceNo
      ensures Counts() == Received(old(Counts()), sequenceNumber)
    {
      receivedPkts, receivedPktsInInterval := To32(receivedPkts + 1), To16(receivedPktsInInterval + 1);
      lastSequenceNo := sequenceNumber;
    }

    method CountLost(n: int, sequenceNumber: U16)
      modifies this`lostPkts, this`lostPktsInInterval, this`lastSequenceNo
      ensures Counts() == Lost(old(Counts()), n, sequenceNumber)
    {
      lostPktsInInterval := To16(lostPktsInInterval + n);
      lostPkts := To32(lostPkts + lostPktsInInterval);
      lastSequenceNo := sequenceNumber;
    }

    method CountUnordered()
      modifies this`unorderedPkts, this`lostPkts, this`lostPktsInInterval
      ensures Counts() == Unordered(old(Counts()))
    {
      unorderedPkts, lostPkts := To32(unorderedPkts + 1), To32(lostPkts - 1);
      lostPktsInInterval := To16(lostPktsInInterval - 1);
    }
  }

  function Hash(): (hs: Hashing<RXData, Addr>)
    ensures hs.Valid()
  {
    Hashing((d: RXData) => d.IPAddr, (a: Addr) => GetIndex(a))
  }

  // ---------- The tables of all payload types, as values ----------

  function NoTables(): (ts: seq<Table<RXData>>)
    ensures |ts| == PAYLOAD_NUMBER
  {
    seq(PAYLOAD_NUMBER, _ => NoEntries<RXData>())
  }

  type Tables = ts: seq<Table<RXData>> | |ts| == PAYLOAD_NUMBER witness NoTables()

  ghost predicate Contains(ts: Tables, data: RXData) {
    exists PT: PayloadType, p: nat | p < SLOTS :: ts[PT][p] == Some(data)
  }

  /**
   setRXData gets the record stored where the probe of this payload type's
   table ends, or puts a new one there; no other table changes.
   */
  ghost predicate Recorded(ts: Tables, addr: Addr, PT: PayloadType, data: RXData, ts': Tables) {
    exists p | 0 <= p < SLOTS :: FoundAt(Hash(), ts[PT], addr, p) &&
      if ts[PT][p].Some? then ts[PT][p] == Some(data) && ts' == ts
      else data.IPAddr == addr && !Contains(ts, data) && ts' == ts[PT := ts[PT][p := Some(data)]]
  }

  // ---------- Agreement with one map for each payload type ----------

  /** The calls so far, each with the record it worked on and the tables it left. */
  datatype Run = Start | Then(before: Run, addr: Addr, PT: PayloadType, data: RXData, after: Tables)

  function Last(run: Run): Tables {
    if run.Start? then NoTables() else run.after
  }

  ghost predicate IsRun(run: Run) {
    run.Then? ==> IsRun(run.before) && Recorded(Last(run.before), run.addr, run.PT, run.data, run.after)
  }

  /** The record each address has for a payload type: the one its first packet created. */
  function Records(run: Run, PT: PayloadType): map<Addr, RXData> {
    if run.Start? then map[]
    else
      var m := Records(run.before, PT);
      if run.PT == PT && run.addr !in m then m[run.addr := run.data] else m
  }

  /** After any run the table of every payload type is well placed and stores exactly its map. */
  lemma {:induction false} RunAgrees(run: Run, PT: PayloadType)
    requires IsRun(run)
    ensures WellPlaced(Hash(), Last(run)[PT]) && Agrees(Hash(), Last(run)[PT], Records(run, PT))
  {
    hide GetIndex, WellPlaced, FoundAt, Agrees, Contains;
    if run.Start? {
      EmptyIsWellPlaced<RXData, Addr>(Hash());
    } else {
      RunAgrees(run.before, PT);
      if run.PT == PT {
        RecordedAgrees(Last(run.before), Records(run.before, PT), run.addr, PT, run.data, run.after);
      }
    }
  }

  /** One call: its record is the one the map has, or a new one for a new address. */
  lemma RecordedAgrees(ts: Tables, m: map<Addr, RXData>, addr: Addr, PT: PayloadType, data: RXData, ts': Tables)
    requires WellPlaced(Hash(), ts[PT]) && Agrees(Hash(), ts[PT], m) && Recorded(ts, addr, PT, data, ts')
    ensures addr in m ==> data == m[addr] && ts' == ts
    ensures WellPlaced(Hash(), ts'[PT])
    ensures Agrees(Hash(), ts'[PT], if addr in m then m else m[addr := data])
  {
    hide GetIndex, WellPlaced, FoundAt, Agrees, Contains;
    var p: nat :| p < SLOTS && FoundAt(Hash(), ts[PT], addr, p) &&
      if ts[PT][p].Some? then ts[PT][p] == Some(data) && ts' == ts
      else data.IPAddr == addr && !Contains(ts, data) && ts' == ts[PT := ts[PT][p := Some(data)]];
    LookupAgrees(Hash(), ts[PT], m, addr, p);
    if ts[PT][p].None? {
      InsertAgrees(Hash(), ts[PT], m, data, p);
    }
  }

  /** One run continues another. */
  ghost predicate Continues(run: Run, later: Run)
    decreases later
  {
    later == run || (later.Then? && Continues(run, later.before))
  }

  /** A record once created is what every later lookup of its address and payload type finds. */
  lemma {:induction false} RecordStays(run: Run, later: Run, addr: Addr, PT: PayloadType, p: nat)
    requires IsRun(later) && Continues(run, later)
    requires addr in Records(run, PT) && FoundAt(Hash(), Last(later)[PT], addr, p)
    ensures Last(later)[PT][p] == Some(Records(run, PT)[addr])
  {
    hide GetIndex, WellPlaced, FoundAt, Agrees, Recorded;
    RunAgrees(later, PT);
    LookupAgrees(Hash(), Last(later)[PT], Records(later, PT), addr, p);
    RecordsGrow(run, later, addr, PT);
  }

  lemma {:induction false} RecordsGrow(run: Run, later: Run, addr: Addr, PT: PayloadType)
    requires Continues(run, later) && addr in Records(run, PT)
    ensures addr in Records(later, PT) && Records(later, PT)[addr] == Records(run, PT)[addr]
    decreases later
  {
    if later != run {
      RecordsGrow(run, later.before, addr, PT);
    }
  }

  /** No record is in two places, so no two addresses and no two payload types share one. */
  ghost predicate NoneShared(ts: Tables) {
    forall PT: PayloadType, QT: PayloadType, p: nat, q: nat
      | p < SLOTS && q < SLOTS && ts[PT][p].Some? && ts[PT][p] == ts[QT][q] :: PT == QT && p == q
  }

  lemma {:induction false} RunSharesNone(run: Run)
    requires IsRun(run)
    ensures NoneShared(Last(run))
  {
    if run.Then? {
      RunSharesNone(run.before);
      RecordedSharesNone(Last(run.before), run.addr, run.PT, run.data, run.after);
    }
  }

  lemma RecordedSharesNone(ts: Tables, addr: Addr, PT: PayloadType, data: RXData, ts': Tables)
    requires NoneShared(ts) && Recorded(ts, addr, PT, data, ts')
    ensures NoneShared(ts')
  {
    hide FoundAt, GetIndex;
  }

  /** Different addresses, or different payload types, have different records. */
  lemma RecordsDiffer(run: Run, a: Addr, PT: PayloadType, b: Addr, QT: PayloadType)
    requires IsRun(run) && a in Records(run, PT) && b in Records(run, QT) && (a != b || PT != QT)
    ensures Records(run, PT)[a] != Records(run, QT)[b]
  {
    hide GetIndex, WellPlaced, FoundAt, Recorded, IsRun;
    RunSharesNone(run);
    RunAgrees(run, PT);
    RunAgrees(run, QT);
    var p: nat :| p < SLOTS && Last(run)[PT][p] == Some(Records(run, PT)[a]);
    var q: nat :| q < SLOTS && Last(run)[QT][q] == Some(Records(run, QT)[b]);
  }

  /**
   A lookup ends while fewer addresses than slots have been seen with its payload type, however full
   the others are.
  */
  lemma RunCanStop(run: Run, addr: Addr, PT: PayloadType)
    requires IsRun(run) && |Records(run, PT).Keys| < SLOTS
    ensures CanStop(Hash(), Last(run)[PT], addr)
  {
    hide GetIndex, WellPlaced, Agrees, CanStop, IsRun, Records;
    RunAgrees(run, PT);
    KeysOfMap(Hash(), Last(run)[PT], Records(run, PT));
    RoomToStop(Hash(), Last(run)[PT], addr);
  }

  // ---------- The code ----------

  /** IPPayloads_t: one slot's records, by payload type. */
  class IPPayloads {
    const PayloadList: array<RXData?>

    constructor ()
      ensures fresh(PayloadList) && PayloadList.Length == PAYLOAD_NUMBER
      ensures forall PT: PayloadType :: PayloadList[PT] == null
    {
      PayloadList := new RXData?[PAYLOAD_NUMBER](_ => null);
    }
  }

  /** IPList_t: the slots of a session. */
  class Session {
    const IPList: array<IPPayloads?>
    /** The table each payload type sees. */
    ghost var tables: Tables

    ghost function PayloadLists(): set<object>
      reads IPList
    {
      set p | 0 <= p < IPList.Length && IPList[p] != null :: IPList[p].PayloadList
    }

    /** What a probe of a payload type sees in a slot. */
    ghost predicate Shows(p: nat, PT: PayloadType, o: Option<RXData>)
      requires p < IPList.Length && (IPList[p] == null || IPList[p].PayloadList.Length == PAYLOAD_NUMBER)
      reads IPList, PayloadLists()
    {
      if IPList[p] == null || IPList[p].PayloadList[PT] == null then o == None
      else o == Some(IPList[p].PayloadList[PT])
    }

    ghost predicate Valid()
      reads this, IPList, PayloadLists()
    {
      && IPList.Length == SLOTS
      && (forall p: nat | p < SLOTS && IPList[p] != null :: IPList[p].PayloadList.Length == PAYLOAD_NUMBER)
      && (forall p: nat, q: nat | p < q < SLOTS && IPList[p] != null && IPList[q] != null ::
            IPList[p].PayloadList != IPList[q].PayloadList)
      && (forall p: nat, PT: PayloadType | p < SLOTS :: Shows(p, PT, tables[PT][p]))
    }

    constructor ()
      ensures Valid() && fresh(IPList) && PayloadLists() == {} && tables == Last(Start)
    {
      IPList := new IPPayloads?[SLOTS](_ => null);
      tables := NoTables();
    }

    /** getPosition: it comes back as soon as a probe of this payload type's table can end anywhere. */
    method GetPosition(addr: Addr, PT: PayloadType) returns (position: nat)
      requires Valid() && CanStop(Hash(), tables[PT], addr)
      ensures FoundAt(Hash(), tables[PT], addr, position)
    {
      hide GetIndex;
      ghost var home, t := GetIndex(addr), tables[PT];
      ghost var d := 0;
      ghost var end: nat :| end < SLOTS && Stops(Hash(), t, addr, end);
      position := GetIndex(addr);
      while IPList[position] != null
        invariant d <= Dist(home, end) && position == Slot(home, d)
        invariant forall d' | 0 <= d' < d :: !Stops(Hash(), t, addr, Slot(home, d'))
        decreases SLOTS - d
      {
        assert Shows(position, PT, t[position]);
        var tmpStats := IPList[position].PayloadList[PT];
        if tmpStats != null {
          if tmpStats.IPAddr == addr {
            break;
          }
        } else {
          break;
        }
        assert !Stops(Hash(), t, addr, position);
        position := (position + 1) % SLOTS;
        d := d + 1;
      }
      assert Shows(position, PT, t[position]);
      assert Dist(home, position) == d;
    }

    /** All records of the session. */
    ghost function AllRecords(): set<RXData>
      reads this
    {
      set PT: nat, p: nat | PT < PAYLOAD_NUMBER && p < SLOTS && tables[PT][p].Some? :: tables[PT][p].value
    }

    /**
     setRXData: the record that is found or made counts the packet, and no other record changes.
     When the interval began is left out.
     */
    method SetRXData(pkt: Packet, addr: Addr) returns (data: RXData)
      requires Valid() && CanStop(Hash(), tables[pkt.payloadType], addr)
      modifies this, IPList, PayloadLists(), AllRecords()
      ensures Valid() && fresh(PayloadLists() - old(PayloadLists()))
      ensures Recorded(old(tables), addr, pkt.payloadType, data, tables)
      ensures tables != old(tables) ==>
                && fresh(data) && data.dataLengthRX == pkt.dataLength && data.totalLengthRX == pkt.totalLength
                && data.Counts() == First(pkt.sequenceNumber) && data.orgSSRC == pkt.SSRC
      ensures tables == old(tables) ==>
                && data in old(AllRecords()) && data.Counts() == Counted(old(data.Counts()), pkt.sequenceNumber)
                && data.dataLengthRX == (old(data.dataLengthRX) + pkt.dataLength) % 0x1_0000_0000
                && data.totalLengthRX == (old(data.totalLengthRX) + pkt.totalLength) % 0x1_0000_0000
      ensures forall r | r in old(AllRecords()) && r != data :: unchanged(r)
    {
      hide Counted, First, Recorded, Hash;
      var isNew;
      data, isNew := FindOrMake(pkt, addr);
      if !isNew {
        data.Update(pkt);
      }
    }

    /** The first part of setRXData: the record of the packet, made from it if there was none. */
    method FindOrMake(pkt: Packet, addr: Addr) returns (data: RXData, isNew: bool)
      requires Valid() && CanStop(Hash(), tables[pkt.payloadType], addr)
      modifies this, IPList, PayloadLists()
      ensures Valid() && fresh(PayloadLists() - old(PayloadLists()))
      ensures Recorded(old(tables), addr, pkt.payloadType, data, tables)
      ensures isNew <==> tables != old(tables)
      ensures isNew ==>
                && fresh(data) && data.dataLengthRX == pkt.dataLength && data.totalLengthRX == pkt.totalLength
                && data.Counts() == First(pkt.sequenceNumber) && data.orgSSRC == pkt.SSRC
      ensures !isNew ==> data in old(AllRecords())
    {
      hide First;
      var index := GetPosition(addr, pkt.payloadType);
      UsePosition(index);
      assert Shows(index, pkt.payloadType, tables[pkt.payloadType][index]);
      var stored := IPList[index].PayloadList[pkt.payloadType];
      if stored != null {
        return stored, false;
      }
      isNew := true;
      data := new RXData(addr, pkt);
      Store(index, pkt.payloadType, data);
    }

    /** Gives a slot its payload list; no payload type sees the difference. */
    method UsePosition(index: nat)
      requires Valid() && index < SLOTS
      modifies IPList
      ensures Valid() && fresh(PayloadLists() - old(PayloadLists())) && IPList[index] != null
    {
      hide Hash;
      if IPList[index] == null {
        IPList[index] := new IPPayloads();
        forall p: nat, PT: PayloadType | p < SLOTS
          ensures Shows(p, PT, tables[PT][p])
        {
          assert old(Shows(p, PT, tables[PT][p]));
        }
      }
    }

    method Store(index: nat, PT: PayloadType, data: RXData)
      requires Valid() && index < SLOTS && IPList[index] != null
      modifies this`tables, IPList[index].PayloadList
      ensures Valid() && PayloadLists() == old(PayloadLists())
      ensures tables == old(tables)[PT := old(tables)[PT][index := Some(data)]]
    {
      hide Hash;
      IPList[index].PayloadList[PT] := data;
      tables := tables[PT := tables[PT][index := Some(data)]];
      forall p: nat, QT: PayloadType | p < SLOTS
        ensures Shows(p, QT, tables[QT][p])
      {
        assert old(Shows(p, QT, tables[QT][p]));
      }
    }
  }
}
