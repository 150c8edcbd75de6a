/**
 Deletion from a linear-probing table by pulling later entries back, as the
 receiver table does it (components/MCU/app/RTCPRecv.cc): entries move up one
 place until the scan meets a free slot or an entry that sits in its own home
 slot, and none beyond that is moved.
 */
module BackShift {
  import opened Options
  import opened LinearProbing

  ghost predicate AtHome<E, K(!new)>(hs: Hashing<E, K>, t: Table<E>, p: nat)
    requires hs.Valid() && p < SLOTS
  {
    t[p].Some? && hs.home(hs.key(t[p].value)) == p
  }

  /** How far an entry sits from its home. */
  ghost function Displaced<E, K(!new)>(hs: Hashing<E, K>, t: Table<E>, p: nat): nat
    requires hs.Valid() && p < SLOTS && t[p].Some?
  {
    Dist(hs.home(hs.key(t[p].value)), p)
  }

  /** The first slot, j places after the deleted one, where the pulling stops. */
  ghost predicate StopsAt<E, K(!new)>(hs: Hashing<E, K>, t: Table<E>, pos: nat, j: nat)
    requires hs.Valid() && pos < SLOTS
  {
    && 1 <= j < SLOTS
    && (t[Slot(pos, j)].None? || AtHome(hs, t, Slot(pos, j)))
    && forall i | 1 <= i < j :: t[Slot(pos, i)].Some? && !AtHome(hs, t, Slot(pos, i))
  }

  /** The table once the k entries after pos have moved up one place and the hole is k places after pos. */
  function Pull<E>(t: Table<E>, pos: nat, k: nat): (t': Table<E>)
    requires pos < SLOTS && k < SLOTS
  {
    seq(SLOTS, p requires 0 <= p < SLOTS =>
      var i := Dist(pos, p);
      if i < k then t[Slot(pos, i + 1)] else if i == k then None else t[p])
  }

  lemma PullAt<E>(t: Table<E>, pos: nat, k: nat, i: nat)
    requires pos < SLOTS && k < SLOTS && i < SLOTS
    ensures Pull(t, pos, k)[Slot(pos, i)] ==
            if i < k then t[Slot(pos, i + 1)] else if i == k then None else t[Slot(pos, i)]
  {
    assert Dist(pos, Slot(pos, i)) == i;
  }

  /** Exactly the deleted entry is gone; all others are still stored, unchanged. */
  lemma PullKeepsOthers<E, K(!new)>(hs: Hashing<E, K>, t: Table<E>, pos: nat, k: nat, e: E)
    requires hs.Valid() && WellPlaced(hs, t) && pos < SLOTS && k < SLOTS && t[pos].Some?
    requires forall i | 1 <= i <= k :: t[Slot(pos, i)].Some?
    ensures (exists p | 0 <= p < SLOTS :: Pull(t, pos, k)[p] == Some(e)) <==>
            (exists p | 0 <= p < SLOTS :: t[p] == Some(e)) && hs.key(e) != hs.key(t[pos].value)
  {
    var t' := Pull(t, pos, k);
    if p :| 0 <= p < SLOTS && t'[p] == Some(e) {
      var i := Dist(pos, p);
      PullAt(t, pos, k, i);
      var q := if i < k then Slot(pos, i + 1) else p;
      assert t[q] == Some(e);
      if hs.key(e) == hs.key(t[pos].value) {
        FoundAtUnique(hs, t, hs.key(e), q, pos);
        assert false;
      }
    }
    if p :| 0 <= p < SLOTS && t[p] == Some(e) && hs.key(e) != hs.key(t[pos].value) {
      var i := Dist(pos, p);
      assert i > 0;
      if i <= k {
        PullAt(t, pos, k, i - 1);
        assert t'[Slot(pos, i - 1)] == Some(e);
      } else {
        PullAt(t, pos, k, i);
        assert t'[p] == Some(e);
      }
    }
  }

  /** No other entry has been displaced past the slot where the pulling stops. */
  ghost predicate NonePassed<E, K(!new)>(hs: Hashing<E, K>, t: Table<E>, pos: nat, j: nat)
    requires hs.Valid() && pos < SLOTS && j < SLOTS
  {
    forall p | 0 <= p < SLOTS && p != pos && t[p].Some? :: Displaced(hs, t, p) <= Dist(Slot(pos, j), p)
  }

  /** Where an entry of the old table is in the new one. */
  function Moved(pos: nat, j: nat, p: nat): (q: nat)
    requires pos < SLOTS && 1 <= j < SLOTS && p < SLOTS && p != pos
    ensures q < SLOTS
  {
    var i := Dist(pos, p);
    if i < j then Slot(pos, i - 1) else p
  }

  lemma MovedEntry<E>(t: Table<E>, pos: nat, j: nat, p: nat)
    requires pos < SLOTS && 1 <= j < SLOTS && p < SLOTS && p != pos
    ensures Pull(t, pos, j - 1)[Moved(pos, j, p)] == t[p]
  {
    var i := Dist(pos, p);
    if i < j {
      PullAt(t, pos, j - 1, i - 1);
    } else {
      PullAt(t, pos, j - 1, i);
    }
  }

  /** If an entry was displaced past the stop, the new hole cuts it off. */
  lemma PassedIsLost<E, K(!new)>(hs: Hashing<E, K>, t: Table<E>, pos: nat, j: nat, p: nat)
    requires hs.Valid() && WellPlaced(hs, t) && pos < SLOTS && t[pos].Some? && StopsAt(hs, t, pos, j)
    requires p < SLOTS && p != pos && t[p].Some? && Displaced(hs, t, p) > Dist(Slot(pos, j), p)
    ensures !FoundAt(hs, Pull(t, pos, j - 1), hs.key(t[p].value), Moved(pos, j, p))
    ensures !WellPlaced(hs, Pull(t, pos, j - 1))
  {
    hide Pull;
    var t' := Pull(t, pos, j - 1);
    var k, q, hole := hs.key(t[p].value), Moved(pos, j, p), Slot(pos, j - 1);
    var h := hs.home(k);
    MovedEntry(t, pos, j, p);
    PullAt(t, pos, j - 1, j - 1);
    assert Stops(hs, t', k, Slot(h, Dist(h, hole)));
    assert Dist(h, hole) < Dist(h, q);
  }

  lemma NonePassedIsKept<E, K(!new)>(hs: Hashing<E, K>, t: Table<E>, pos: nat, j: nat, p: nat)
    requires hs.Valid() && WellPlaced(hs, t) && pos < SLOTS && t[pos].Some? && StopsAt(hs, t, pos, j)
    requires p < SLOTS && p != pos && t[p].Some? && Displaced(hs, t, p) <= Dist(Slot(pos, j), p)
    ensures FoundAt(hs, Pull(t, pos, j - 1), hs.key(t[p].value), Moved(pos, j, p))
  {
    hide Pull;
    var t' := Pull(t, pos, j - 1);
    var k, q := hs.key(t[p].value), Moved(pos, j, p);
    var h := hs.home(k);
    MovedEntry(t, pos, j, p);
    forall d | 0 <= d < Dist(h, q)
      ensures !Stops(hs, t', k, Slot(h, d))
    {
      KeptOnTheWay(hs, t, pos, j, p, d);
    }
  }

  /** The way to its new place is part of the way to its old one and misses the hole. */
  lemma OnTheWay<E, K(!new)>(hs: Hashing<E, K>, t: Table<E>, pos: nat, j: nat, p: nat, d: nat)
    requires hs.Valid() && WellPlaced(hs, t) && pos < SLOTS && t[pos].Some? && StopsAt(hs, t, pos, j)
    requires p < SLOTS && p != pos && t[p].Some? && Displaced(hs, t, p) <= Dist(Slot(pos, j), p)
    requires d < Dist(hs.home(hs.key(t[p].value)), Moved(pos, j, p))
    ensures var k := hs.key(t[p].value);
            var s := Slot(hs.home(k), d);
            d < Dist(hs.home(k), p) && !Stops(hs, t, k, s) && Dist(pos, s) != j - 1
  {
    var h := hs.home(hs.key(t[p].value));
    assert d < Dist(h, p);
  }

  /** Before its new place, no slot on the way ends the probe for such an entry. */
  lemma KeptOnTheWay<E, K(!new)>(hs: Hashing<E, K>, t: Table<E>, pos: nat, j: nat, p: nat, d: nat)
    requires hs.Valid() && WellPlaced(hs, t) && pos < SLOTS && t[pos].Some? && StopsAt(hs, t, pos, j)
    requires p < SLOTS && p != pos && t[p].Some? && Displaced(hs, t, p) <= Dist(Slot(pos, j), p)
    requires d < Dist(hs.home(hs.key(t[p].value)), Moved(pos, j, p))
    ensures var k := hs.key(t[p].value); !Stops(hs, Pull(t, pos, j - 1), k, Slot(hs.home(k), d))
  {
    hide Pull;
    var k := hs.key(t[p].value);
    var h := hs.home(k);
    var s := Slot(h, d);
    var o := Dist(pos, s);
    OnTheWay(hs, t, pos, j, p, d);
    PullAt(t, pos, j - 1, o);
    if o < j - 1 {
      var n := Slot(pos, o + 1);
      assert t[n].Some?;
      if hs.key(t[n].value) == k {
        FoundAtUnique(hs, t, k, n, p);
        assert false;
      }
    }
  }

  /**
   The pulling leaves every entry findable if and only if no other entry was
   displaced past the slot where it stops.
   */
  lemma PullIsRightIff<E, K(!new)>(hs: Hashing<E, K>, t: Table<E>, pos: nat, j: nat)
    requires hs.Valid() && WellPlaced(hs, t) && pos < SLOTS && t[pos].Some? && StopsAt(hs, t, pos, j)
    ensures WellPlaced(hs, Pull(t, pos, j - 1)) <==> NonePassed(hs, t, pos, j)
  {
    var t' := Pull(t, pos, j - 1);
    if NonePassed(hs, t, pos, j) {
      forall q | 0 <= q < SLOTS && t'[q].Some?
        ensures FoundAt(hs, t', hs.key(t'[q].value), q)
      {
        var i := Dist(pos, q);
        PullAt(t, pos, j - 1, i);
        var p := if i < j - 1 then Slot(pos, i + 1) else q;
        assert Moved(pos, j, p) == q;
        NonePassedIsKept(hs, t, pos, j, p);
      }
    } else {
      var p: nat :| p < SLOTS && p != pos && t[p].Some? && Displaced(hs, t, p) > Dist(Slot(pos, j), p);
      PassedIsLost(hs, t, pos, j, p);
    }
  }

  /** When the pulling stops at a free slot nothing can have passed it. */
  lemma FreeStopIsRight<E, K(!new)>(hs: Hashing<E, K>, t: Table<E>, pos: nat, j: nat)
    requires hs.Valid() && WellPlaced(hs, t) && pos < SLOTS && StopsAt(hs, t, pos, j)
    requires t[Slot(pos, j)].None?
    ensures NonePassed(hs, t, pos, j)
  {
    var stop := Slot(pos, j);
    forall p | 0 <= p < SLOTS && p != pos && t[p].Some?
      ensures Displaced(hs, t, p) <= Dist(stop, p)
    {
      var k := hs.key(t[p].value);
      var h := hs.home(k);
      assert FoundAt(hs, t, k, p);
      assert Slot(h, Dist(h, stop)) == stop;
    }
  }

  // ---------- Tables whose homes do not decrease ----------

  function Next(p: nat): (q: nat)
    requires p < SLOTS
    ensures q < SLOTS && q == (p + 1) % SLOTS
  {
    if p + 1 < SLOTS then p + 1 else 0
  }

  /**
   Along every run of entries the home slots are non-decreasing: no entry is displaced by more than
   one place more than the one before.
  */
  ghost predicate HomesInOrder<E, K(!new)>(hs: Hashing<E, K>, t: Table<E>)
    requires hs.Valid()
  {
    forall p | 0 <= p < SLOTS && t[p].Some? && t[Next(p)].Some? :: Displaced(hs, t, Next(p)) <= Displaced(hs, t, p) + 1
  }

  lemma {:induction false} InOrderFromStop<E, K(!new)>(hs: Hashing<E, K>, t: Table<E>, stop: nat, d: nat)
    requires hs.Valid() && WellPlaced(hs, t) && HomesInOrder(hs, t)
    requires stop < SLOTS && d < SLOTS && (t[stop].None? || AtHome(hs, t, stop))
    requires t[Slot(stop, d)].Some?
    ensures Displaced(hs, t, Slot(stop, d)) <= d
  {
    if d > 0 {
      var p, q := Slot(stop, d), Slot(stop, d - 1);
      assert Next(q) == p;
      if t[q].Some? {
        InOrderFromStop(hs, t, stop, d - 1);
      } else {
        var k := hs.key(t[p].value);
        assert FoundAt(hs, t, k, p);
        if Displaced(hs, t, p) > 0 {
          assert Slot(hs.home(k), Displaced(hs, t, p) - 1) == q;
        }
      }
    }
  }

  /** In such a table deletion is always right, and the table stays in order. */
  lemma InOrderDeletes<E, K(!new)>(hs: Hashing<E, K>, t: Table<E>, pos: nat, j: nat)
    requires hs.Valid() && WellPlaced(hs, t) && HomesInOrder(hs, t)
    requires pos < SLOTS && t[pos].Some? && StopsAt(hs, t, pos, j)
    ensures WellPlaced(hs, Pull(t, pos, j - 1)) && HomesInOrder(hs, Pull(t, pos, j - 1))
  {
    var stop := Slot(pos, j);
    forall p | 0 <= p < SLOTS && p != pos && t[p].Some?
      ensures Displaced(hs, t, p) <= Dist(stop, p)
    {
      InOrderFromStop(hs, t, stop, Dist(stop, p));
    }
    PullIsRightIff(hs, t, pos, j);
    var t' := Pull(t, pos, j - 1);
    forall p | 0 <= p < SLOTS && t'[p].Some? && t'[Next(p)].Some?
      ensures Displaced(hs, t', Next(p)) <= Displaced(hs, t', p) + 1
    {
      OrderAfterPull(hs, t, pos, j, p);
    }
  }

  lemma OrderAfterPull<E, K(!new)>(hs: Hashing<E, K>, t: Table<E>, pos: nat, j: nat, p: nat)
    requires hs.Valid() && WellPlaced(hs, t) && HomesInOrder(hs, t)
    requires pos < SLOTS && t[pos].Some? && StopsAt(hs, t, pos, j)
    requires p < SLOTS && Pull(t, pos, j - 1)[p].Some? && Pull(t, pos, j - 1)[Next(p)].Some?
    ensures var t' := Pull(t, pos, j - 1); Displaced(hs, t', Next(p)) <= Displaced(hs, t', p) + 1
  {
    hide WellPlaced, Pull;
    var i := Dist(pos, p);
    var n := Dist(pos, Next(p));
    assert n == if i + 1 < SLOTS then i + 1 else 0;
    PullAt(t, pos, j - 1, i);
    PullAt(t, pos, j - 1, n);
    if i < j - 1 {
      var a := Slot(pos, i + 1);
      assert Next(a) == Slot(pos, i + 2) && n + 1 == i + 2;
      assert !AtHome(hs, t, a) && !AtHome(hs, t, Next(a));
    } else if n < j - 1 {
      assert n == 0 && Next(p) == pos;
      var a := Slot(pos, 1);
      assert Next(pos) == a && !AtHome(hs, t, a);
    }
  }

  // ---------- The scan, step by step ----------

  /** Somewhere the pulling can stop. */
  ghost predicate CanSettle<E, K(!new)>(hs: Hashing<E, K>, t: Table<E>, pos: nat)
    requires hs.Valid() && pos < SLOTS
  {
    exists i | 1 <= i < SLOTS :: t[Slot(pos, i)].None? || AtHome(hs, t, Slot(pos, i))
  }

  lemma {:induction false} FirstStop<E, K(!new)>(hs: Hashing<E, K>, t: Table<E>, pos: nat, i: nat) returns (j: nat)
    requires hs.Valid() && pos < SLOTS
    requires 1 <= i < SLOTS && (t[Slot(pos, i)].None? || AtHome(hs, t, Slot(pos, i)))
    ensures StopsAt(hs, t, pos, j)
    decreases i
  {
    if m :| 1 <= m < i && (t[Slot(pos, m)].None? || AtHome(hs, t, Slot(pos, m))) {
      j := FirstStop(hs, t, pos, m);
    } else {
      j := i;
    }
  }

  /** Any other free slot is enough. */
  lemma FreeSlotSettles<E, K(!new)>(hs: Hashing<E, K>, t: Table<E>, pos: nat, q: nat)
    requires hs.Valid() && pos < SLOTS && q < SLOTS && q != pos && t[q].None?
    ensures CanSettle(hs, t, pos)
  {
    assert t[Slot(pos, Dist(pos, q))].None?;
  }

  /** Moving the next entry into the hole. */
  lemma PullStep<E>(t: Table<E>, pos: nat, k: nat)
    requires pos < SLOTS && k + 1 < SLOTS
    ensures var a, b := Slot(pos, k), Slot(pos, k + 1);
            a != b && Pull(t, pos, k)[b] == t[b] && Pull(t, pos, k)[a := t[b]][b := None] == Pull(t, pos, k + 1)
  {
    var a, b := Slot(pos, k), Slot(pos, k + 1);
    var t1 := Pull(t, pos, k)[a := t[b]][b := None];
    forall p | 0 <= p < SLOTS
      ensures t1[p] == Pull(t, pos, k + 1)[p]
    {
      assert Slot(pos, Dist(pos, p)) == p;
    }
    assert t1 == Pull(t, pos, k + 1);
  }

  /** No key is stored twice on the way either. */
  lemma PulledKeysDiffer<E, K(!new)>(hs: Hashing<E, K>, t: Table<E>, pos: nat, k: nat, p: nat, q: nat)
    requires hs.Valid() && WellPlaced(hs, t) && pos < SLOTS && k < SLOTS && p < SLOTS && q < SLOTS && p != q
    requires Pull(t, pos, k)[p].Some? && Pull(t, pos, k)[q].Some?
    ensures hs.key(Pull(t, pos, k)[p].value) != hs.key(Pull(t, pos, k)[q].value)
  {
    var a, b := Dist(pos, p), Dist(pos, q);
    PullAt(t, pos, k, a);
    PullAt(t, pos, k, b);
    var p', q' := if a < k then Slot(pos, a + 1) else p, if b < k then Slot(pos, b + 1) else q;
    assert p' != q';
    if hs.key(t[p'].value) == hs.key(t[q'].value) {
      FoundAtUnique(hs, t, hs.key(t[p'].value), p', q');
    }
  }

  /** An entry that is not in its own home is looked up in the hole just before it. */
  lemma NextGoesToHole<E, K(!new)>(hs: Hashing<E, K>, t: Table<E>, pos: nat, k: nat)
    requires hs.Valid() && WellPlaced(hs, t) && pos < SLOTS && t[pos].Some? && k + 1 < SLOTS
    requires forall i | 1 <= i <= k + 1 :: t[Slot(pos, i)].Some?
    requires !AtHome(hs, t, Slot(pos, k + 1))
    ensures FoundAt(hs, Pull(t, pos, k), hs.key(t[Slot(pos, k + 1)].value), Slot(pos, k))
  {
    var t', a, b := Pull(t, pos, k), Slot(pos, k), Slot(pos, k + 1);
    var e := hs.key(t[b].value);
    var h := hs.home(e);
    assert FoundAt(hs, t, e, b) && Dist(h, b) > 0;
    PullAt(t, pos, k, k);
    forall d | 0 <= d < Dist(h, a)
      ensures !Stops(hs, t', e, Slot(h, d))
    {
      var s := Slot(h, d);
      var o := Dist(pos, s);
      assert !Stops(hs, t, e, s) && o != k;
      PullAt(t, pos, k, o);
      if o < k {
        var n := Slot(pos, o + 1);
        if hs.key(t[n].value) == e {
          FoundAtUnique(hs, t, e, n, b);
          assert false;
        }
      }
    }
  }

  // ---------- The scan as a whole ----------

  /** One step of the scan in any table: the entry after pos1 moves up if a lookup of it leads there. */
  ghost function ScanOnce<E, K(!new)>(hs: Hashing<E, K>, t: Table<E>, pos1: nat): (t': Table<E>)
    requires hs.Valid() && pos1 < SLOTS && t[Next(pos1)].Some?
  {
    var pos2 := Next(pos1);
    if Probe(hs, t, hs.key(t[pos2].value)) == pos1 then t[pos1 := t[pos2]][pos2 := None] else t
  }

  /** The scan from step k on; it ends at a free slot. */
  ghost function Scan<E, K(!new)>(hs: Hashing<E, K>, t: Table<E>, pos: nat, k: nat): (t': Table<E>)
    requires hs.Valid() && pos < SLOTS && k <= SLOTS
    decreases SLOTS - k
  {
    if k == SLOTS || t[Next(Slot(pos, k))].None? then t else Scan(hs, ScanOnce(hs, t, Slot(pos, k)), pos, k + 1)
  }

  /** What deleting a key does to any table. */
  ghost function Deleted<E, K(!new)>(hs: Hashing<E, K>, t: Table<E>, key: K): (t': Table<E>)
    requires hs.Valid()
  {
    var pos := Probe(hs, t, key);
    if t[pos].None? then t else Scan(hs, t[pos := None], pos, 0)
  }

  /** In a well placed table, what the scan has made of it after k steps. */
  ghost predicate Scanned<E>(t: Table<E>, pos: nat, j: nat, k: nat, u: Table<E>)
    requires pos < SLOTS && 1 <= j < SLOTS
  {
    && u == Pull(t, pos, if k < j then k else j - 1)
    && (j <= k < SLOTS ==> u[Slot(pos, k)].Some?)
  }

  lemma ScannedStart<E>(t: Table<E>, pos: nat, j: nat)
    requires pos < SLOTS && 1 <= j < SLOTS
    ensures Scanned(t, pos, j, 0, t[pos := None])
  {
    assert t[pos := None] == Pull(t, pos, 0);
  }

  /** Up to the stop each entry moves up. */
  lemma ScanMoves<E, K(!new)>(hs: Hashing<E, K>, t: Table<E>, pos: nat, j: nat, k: nat, u: Table<E>)
    requires hs.Valid() && WellPlaced(hs, t) && pos < SLOTS && t[pos].Some? && StopsAt(hs, t, pos, j)
    requires k + 1 < j && Scanned(t, pos, j, k, u) && u[Next(Slot(pos, k))].Some?
    ensures Scanned(t, pos, j, k + 1, ScanOnce(hs, u, Slot(pos, k)))
  {
    hide Pull, WellPlaced;
    PullStep(t, pos, k);
    NextGoesToHole(hs, t, pos, k);
    ProbeFinds(hs, u, hs.key(t[Slot(pos, k + 1)].value), Slot(pos, k));
    assert Next(Slot(pos, k)) == Slot(pos, k + 1);
  }

  lemma StopIsHome<E, K(!new)>(hs: Hashing<E, K>, t: Table<E>, pos: nat, j: nat)
    requires hs.Valid() && pos < SLOTS && StopsAt(hs, t, pos, j) && Pull(t, pos, j - 1)[Slot(pos, j)].Some?
    ensures Pull(t, pos, j - 1)[Slot(pos, j)] == t[Slot(pos, j)] && AtHome(hs, t, Slot(pos, j))
  {
    hide Pull;
    PullAt(t, pos, j - 1, j);
  }

  /** From the stop on none does: no lookup leads to the slot before the entry looked up. */
  lemma ScanStays<E, K(!new)>(hs: Hashing<E, K>, t: Table<E>, pos: nat, j: nat, k: nat, u: Table<E>)
    requires hs.Valid() && WellPlaced(hs, t) && pos < SLOTS && t[pos].Some? && StopsAt(hs, t, pos, j)
    requires j <= k + 1 && k < SLOTS && Scanned(t, pos, j, k, u) && u[Next(Slot(pos, k))].Some?
    ensures Scanned(t, pos, j, k + 1, ScanOnce(hs, u, Slot(pos, k)))
  {
    hide Pull, WellPlaced;
    var pos1 := Slot(pos, k);
    var pos2 := Next(pos1);
    var key := hs.key(u[pos2].value);
    assert k + 1 < SLOTS ==> pos2 == Slot(pos, k + 1);
    assert Stops(hs, u, key, pos2);
    ProbeEnds(hs, u, key);
    if k >= j {
      PulledKeysDiffer(hs, t, pos, j - 1, pos1, pos2);
    } else {
      StopIsHome(hs, t, pos, j);
      assert FoundAt(hs, u, key, pos2);
      ProbeFinds(hs, u, key, pos2);
    }
  }

  /** The scan meets a free slot only at the stop or after it. */
  lemma ScanEnds<E, K(!new)>(hs: Hashing<E, K>, t: Table<E>, pos: nat, j: nat, k: nat)
    requires hs.Valid() && pos < SLOTS && StopsAt(hs, t, pos, j) && k < SLOTS
    requires Pull(t, pos, if k < j then k else j - 1)[Next(Slot(pos, k))].None?
    ensures k >= j - 1
  {
    hide Pull;
    if k < j - 1 {
      PullAt(t, pos, k, k + 1);
    }
  }

  lemma {:induction false} ScanIsPull<E, K(!new)>(hs: Hashing<E, K>, t: Table<E>, pos: nat, j: nat, k: nat, u: Table<E>)
    requires hs.Valid() && WellPlaced(hs, t) && pos < SLOTS && t[pos].Some? && StopsAt(hs, t, pos, j)
    requires k <= SLOTS && Scanned(t, pos, j, k, u)
    ensures Scan(hs, u, pos, k) == Pull(t, pos, j - 1)
    decreases SLOTS - k
  {
    hide Pull, WellPlaced, ScanOnce;
    if k < SLOTS {
      if u[Next(Slot(pos, k))].None? {
        ScanEnds(hs, t, pos, j, k);
      } else {
        if k + 1 < j {
          ScanMoves(hs, t, pos, j, k, u);
        } else {
          ScanStays(hs, t, pos, j, k, u);
        }
        ScanIsPull(hs, t, pos, j, k + 1, ScanOnce(hs, u, Slot(pos, k)));
      }
    }
  }

  /** In a well placed table with another free slot, deleting is pulling back up to the first place to stop. */
  lemma DeletedIsPulled<E, K(!new)>(hs: Hashing<E, K>, t: Table<E>, key: K, p: nat)
    requires hs.Valid() && WellPlaced(hs, t) && FoundAt(hs, t, key, p) && t[p].Some? && CanSettle(hs, t, p)
    ensures exists j: nat :: StopsAt(hs, t, p, j) && Deleted(hs, t, key) == Pull(t, p, j - 1)
  {
    hide Pull, WellPlaced, Scan;
    var i: nat :| 1 <= i < SLOTS && (t[Slot(p, i)].None? || AtHome(hs, t, Slot(p, i)));
    var j := FirstStop(hs, t, p, i);
    ProbeFinds(hs, t, key, p);
    ScannedStart(t, p, j);
    ScanIsPull(hs, t, p, j, 0, t[p := None]);
  }
}
