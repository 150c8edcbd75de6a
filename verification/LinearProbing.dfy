/** Tables searched by linear probing from a home slot, as values. */
module LinearProbing {
  import opened Options

  /** MAX_USERS and MAX_USERS_PER_SESSION. */
  const SLOTS: nat := 0xffff

  /** How an entry yields its key and a key its home slot. */
  datatype Hashing<!E, !K(!new)> = Hashing(key: E -> K, home: K -> nat) {
    ghost predicate Valid() {
      forall k :: home(k) < SLOTS
    }
  }

  type Table<E> = t: seq<Option<E>> | |t| == SLOTS witness seq(SLOTS, _ => None)

  /** The table of a new object. */
  function NoEntries<E>(): Table<E> {
    seq(SLOTS, _ => None)
  }

  /** The slot d places after h. */
  function Slot(h: nat, d: nat): (p: nat)
    requires h < SLOTS && d < SLOTS
    ensures p < SLOTS && p == (h + d) % SLOTS
  {
    if h + d < SLOTS then h + d else h + d - SLOTS
  }

  /** How many places p is after h. */
  function Dist(h: nat, p: nat): (d: nat)
    requires h < SLOTS && p < SLOTS
    ensures d < SLOTS && Slot(h, d) == p
  {
    if h <= p then p - h else p + SLOTS - h
  }

  /** A probe for k ends at this slot: it is free or holds k. */
  ghost predicate Stops<E, K(!new)>(hs: Hashing<E, K>, t: Table<E>, k: K, p: nat)
    requires p < SLOTS
  {
    t[p].None? || hs.key(t[p].value) == k
  }

  /** A probe for k ends at p and nowhere before. */
  ghost predicate FoundAt<E, K(!new)>(hs: Hashing<E, K>, t: Table<E>, k: K, p: nat)
    requires hs.Valid()
  {
    && p < SLOTS
    && Stops(hs, t, k, p)
    && forall d | 0 <= d < Dist(hs.home(k), p) :: !Stops(hs, t, k, Slot(hs.home(k), d))
  }

  ghost predicate Holds<E, K(!new)>(hs: Hashing<E, K>, t: Table<E>, k: K, p: nat) {
    p < SLOTS && t[p].Some? && hs.key(t[p].value) == k
  }

  /** Every stored entry is where a probe for its key ends. */
  ghost predicate WellPlaced<E, K(!new)>(hs: Hashing<E, K>, t: Table<E>)
    requires hs.Valid()
  {
    forall p | 0 <= p < SLOTS && t[p].Some? :: FoundAt(hs, t, hs.key(t[p].value), p)
  }

  /** There is a slot at which a probe for k can end. */
  ghost predicate CanStop<E, K(!new)>(hs: Hashing<E, K>, t: Table<E>, k: K) {
    exists p | 0 <= p < SLOTS :: Stops(hs, t, k, p)
  }

  lemma FoundAtUnique<E, K(!new)>(hs: Hashing<E, K>, t: Table<E>, k: K, p: nat, q: nat)
    requires hs.Valid() && FoundAt(hs, t, k, p) && FoundAt(hs, t, k, q)
    ensures p == q
  {
    var h := hs.home(k);
    assert Slot(h, Dist(h, p)) == p && Slot(h, Dist(h, q)) == q;
  }

  /** Where a probe for k that has passed d slots ends; after all slots, at the home. */
  ghost function ProbeFrom<E, K(!new)>(hs: Hashing<E, K>, t: Table<E>, k: K, d: nat): (p: nat)
    requires hs.Valid() && d <= SLOTS
    ensures p < SLOTS
    decreases SLOTS - d
  {
    if d == SLOTS then hs.home(k)
    else if Stops(hs, t, k, Slot(hs.home(k), d)) then Slot(hs.home(k), d)
    else ProbeFrom(hs, t, k, d + 1)
  }

  ghost function Probe<E, K(!new)>(hs: Hashing<E, K>, t: Table<E>, k: K): (p: nat)
    requires hs.Valid()
    ensures p < SLOTS
  {
    ProbeFrom(hs, t, k, 0)
  }

  lemma {:induction false} ProbeFromFinds<E, K(!new)>(hs: Hashing<E, K>, t: Table<E>, k: K, d: nat, p: nat)
    requires hs.Valid() && FoundAt(hs, t, k, p) && d <= Dist(hs.home(k), p)
    ensures ProbeFrom(hs, t, k, d) == p
    decreases SLOTS - d
  {
    if d < Dist(hs.home(k), p) {
      ProbeFromFinds(hs, t, k, d + 1, p);
    }
  }

  lemma ProbeFinds<E, K(!new)>(hs: Hashing<E, K>, t: Table<E>, k: K, p: nat)
    requires hs.Valid() && FoundAt(hs, t, k, p)
    ensures Probe(hs, t, k) == p
  {
    ProbeFromFinds(hs, t, k, 0, p);
  }

  /** As soon as it can end, a probe does end where it should. */
  lemma ProbeEnds<E, K(!new)>(hs: Hashing<E, K>, t: Table<E>, k: K)
    requires hs.Valid() && CanStop(hs, t, k)
    ensures FoundAt(hs, t, k, Probe(hs, t, k))
  {
    var p: nat :| p < SLOTS && Stops(hs, t, k, p);
    var q := FirstStopOf(hs, t, k, p);
    ProbeFinds(hs, t, k, q);
  }

  lemma {:induction false} FirstStopOf<E, K(!new)>(hs: Hashing<E, K>, t: Table<E>, k: K, p: nat) returns (q: nat)
    requires hs.Valid() && p < SLOTS && Stops(hs, t, k, p)
    ensures FoundAt(hs, t, k, q)
    decreases Dist(hs.home(k), p)
  {
    var h := hs.home(k);
    if d: nat :| d < Dist(h, p) && Stops(hs, t, k, Slot(h, d)) {
      assert Dist(h, Slot(h, d)) == d;
      q := FirstStopOf(hs, t, k, Slot(h, d));
    } else {
      q := p;
    }
  }

  /** In a well placed table no key is stored twice, and a probe finds exactly the keys that are stored. */
  lemma ProbeDecides<E, K(!new)>(hs: Hashing<E, K>, t: Table<E>, k: K, p: nat)
    requires hs.Valid() && WellPlaced(hs, t) && FoundAt(hs, t, k, p)
    ensures forall q | Holds(hs, t, k, q) :: q == p
    ensures Holds(hs, t, k, p) <==> exists q :: Holds(hs, t, k, q)
  {
    forall q | Holds(hs, t, k, q)
      ensures q == p
    {
      FoundAtUnique(hs, t, k, p, q);
    }
  }

  /** Filling the free slot where the probe ended keeps every entry findable. */
  lemma InsertKeepsPlaces<E, K(!new)>(hs: Hashing<E, K>, t: Table<E>, e: E, p: nat)
    requires hs.Valid() && WellPlaced(hs, t)
    requires FoundAt(hs, t, hs.key(e), p) && t[p].None?
    ensures WellPlaced(hs, t[p := Some(e)])
  {
    var t': Table<E> := t[p := Some(e)];
    forall q | 0 <= q < SLOTS && t'[q].Some?
      ensures FoundAt(hs, t', hs.key(t'[q].value), q)
    {
      var k := hs.key(t'[q].value);
      var h := hs.home(k);
      if q != p {
        assert FoundAt(hs, t, k, q);
        forall d | 0 <= d < Dist(h, q)
          ensures !Stops(hs, t', k, Slot(h, d))
        {
          assert !Stops(hs, t, k, Slot(h, d));
        }
      } else {
        forall d | 0 <= d < Dist(h, q)
          ensures !Stops(hs, t', k, Slot(h, d))
        {
          assert !Stops(hs, t, k, Slot(h, d));
        }
      }
    }
  }

  // ---------- Counting ----------

  /** The keys stored in the first n slots. */
  ghost function KeysBelow<E, K(!new)>(hs: Hashing<E, K>, t: Table<E>, n: nat): set<K>
    requires n <= SLOTS
  {
    set p: nat | p < n && t[p].Some? :: hs.key(t[p].value)
  }

  ghost function Keys<E, K(!new)>(hs: Hashing<E, K>, t: Table<E>): set<K> {
    KeysBelow(hs, t, SLOTS)
  }

  /** A probe that ends at a free slot was for a key that is not stored. */
  lemma FreeMeansUnknown<E, K(!new)>(hs: Hashing<E, K>, t: Table<E>, k: K, p: nat)
    requires hs.Valid() && WellPlaced(hs, t) && FoundAt(hs, t, k, p) && t[p].None?
    ensures k !in Keys(hs, t)
  {
    ProbeDecides(hs, t, k, p);
    forall q: nat | q < SLOTS && t[q].Some?
      ensures hs.key(t[q].value) != k
    {
      assert !Holds(hs, t, k, q);
    }
  }

  lemma {:induction false} FullTableHasManyKeys<E, K(!new)>(hs: Hashing<E, K>, t: Table<E>, n: nat)
    requires n <= SLOTS && hs.Valid() && WellPlaced(hs, t)
    requires forall p | 0 <= p < n :: t[p].Some?
    ensures |KeysBelow(hs, t, n)| == n
  {
    if n > 0 {
      FullTableHasManyKeys(hs, t, n - 1);
      var k := hs.key(t[n - 1].value);
      assert KeysBelow(hs, t, n) == KeysBelow(hs, t, n - 1) + {k};
      if k in KeysBelow(hs, t, n - 1) {
        var p: nat :| p < n - 1 && hs.key(t[p].value) == k;
        FoundAtUnique(hs, t, k, p, n - 1);
      }
    }
  }

  /** With fewer keys than slots a probe for any key comes to an end. */
  lemma RoomToStop<E, K(!new)>(hs: Hashing<E, K>, t: Table<E>, k: K)
    requires hs.Valid() && WellPlaced(hs, t) && |Keys(hs, t)| < SLOTS
    ensures CanStop(hs, t, k)
  {
    if forall p | 0 <= p < SLOTS :: t[p].Some? {
      FullTableHasManyKeys(hs, t, SLOTS);
    } else {
      var p :| 0 <= p < SLOTS && t[p].None?;
      assert Stops(hs, t, k, p);
    }
  }

  lemma KeysAfterInsert<E, K(!new)>(hs: Hashing<E, K>, t: Table<E>, e: E, p: nat)
    requires p < SLOTS && t[p].None?
    ensures Keys(hs, t[p := Some(e)]) == Keys(hs, t) + {hs.key(e)}
  {
    var t': Table<E> := t[p := Some(e)];
    forall k
      ensures k in Keys(hs, t') <==> k in Keys(hs, t) + {hs.key(e)}
    {
      if k in Keys(hs, t) {
        var q: nat :| q < SLOTS && t[q].Some? && hs.key(t[q].value) == k;
        assert t'[q] == t[q];
      }
      if k == hs.key(e) {
        assert t'[p].Some?;
      }
    }
  }

  // ---------- Agreement with a map ----------

  /** The table stores exactly the entries of a map. */
  ghost predicate Agrees<E, K(!new)>(hs: Hashing<E, K>, t: Table<E>, m: map<K, E>) {
    && (forall p | 0 <= p < SLOTS && t[p].Some? :: hs.key(t[p].value) in m && m[hs.key(t[p].value)] == t[p].value)
    && (forall k | k in m :: hs.key(m[k]) == k && exists p | 0 <= p < SLOTS :: t[p] == Some(m[k]))
  }

  /** Then a lookup yields what the map has. */
  lemma LookupAgrees<E, K(!new)>(hs: Hashing<E, K>, t: Table<E>, m: map<K, E>, k: K, p: nat)
    requires hs.Valid() && WellPlaced(hs, t) && Agrees(hs, t, m) && FoundAt(hs, t, k, p)
    ensures t[p] == if k in m then Some(m[k]) else None
  {
    if k in m {
      var q: nat :| q < SLOTS && t[q] == Some(m[k]);
      FoundAtUnique(hs, t, k, p, q);
    }
  }

  lemma InsertAgrees<E, K(!new)>(hs: Hashing<E, K>, t: Table<E>, m: map<K, E>, e: E, p: nat)
    requires hs.Valid() && WellPlaced(hs, t) && Agrees(hs, t, m)
    requires FoundAt(hs, t, hs.key(e), p) && t[p].None?
    ensures WellPlaced(hs, t[p := Some(e)]) && Agrees(hs, t[p := Some(e)], m[hs.key(e) := e])
  {
    LookupAgrees(hs, t, m, hs.key(e), p);
    InsertKeepsPlaces(hs, t, e, p);
    hide WellPlaced, FoundAt;
    var t': Table<E>, m' := t[p := Some(e)], m[hs.key(e) := e];
    forall k | k in m'
      ensures exists q | 0 <= q < SLOTS :: t'[q] == Some(m'[k])
    {
      if k == hs.key(e) {
        assert t'[p] == Some(e);
      } else {
        var q: nat :| q < SLOTS && t[q] == Some(m[k]);
        assert t'[q] == t[q];
      }
    }
  }

  lemma EmptyIsWellPlaced<E, K(!new)>(hs: Hashing<E, K>)
    requires hs.Valid()
    ensures WellPlaced(hs, NoEntries()) && Keys(hs, NoEntries()) == {} && Agrees(hs, NoEntries(), map[])
  {
  }

  lemma KeysOfMap<E, K(!new)>(hs: Hashing<E, K>, t: Table<E>, m: map<K, E>)
    requires Agrees(hs, t, m)
    ensures Keys(hs, t) == m.Keys
  {
    forall k | k in m
      ensures k in Keys(hs, t)
    {
      var q: nat :| q < SLOTS && t[q] == Some(m[k]);
      assert hs.key(t[q].value) == k;
    }
  }
}
