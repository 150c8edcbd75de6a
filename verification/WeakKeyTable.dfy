/** The keys of the table of lib/crypto/set_key.c: which of them undo each other. */
module WeakKeyTable {
  import opened DesLocal
  import opened KeyCheck
  import opened KeyLaws
  import opened OppositeKeys
  import opened SetKey

  // ---------- The sixteen keys ----------

  function TableKey(i: nat): Block
    requires i < 16
  {
    Load(WeakKeys()[i])
  }

  /** The weak keys stand alone, the semi-weak ones in pairs. */
  function Partner(i: nat): (j: nat)
    requires i < 16
    ensures j < 16
  {
    if i < 4 then i else if i % 2 == 0 then i + 1 else i - 1
  }

  /** What PC1 makes of the keys. */
  function TableHalves(i: nat): Halves
    requires i < 16
  {
    match i
    case 0 => Halves(0, 0)
    case 1 => Halves(0x0fffffff, 0x0fffffff)
    case 2 => Halves(0x0f000000, 0x0fffffff)
    case 3 => Halves(0x00ffffff, 0)
    case 4 => Halves(0x05555555, 0x05555555)
    case 5 => Halves(0x0aaaaaaa, 0x0aaaaaaa)
    case 6 => Halves(0x05555555, 0x0aaaaaaa)
    case 7 => Halves(0x0aaaaaaa, 0x05555555)
    case 8 => Halves(0x05555555, 0)
    case 9 => Halves(0x0aaaaaaa, 0)
    case 10 => Halves(0x05555555, 0x0fffffff)
    case 11 => Halves(0x0aaaaaaa, 0x0fffffff)
    case 12 => Halves(0, 0x05555555)
    case 13 => Halves(0, 0x0aaaaaaa)
    case 14 => Halves(0x0fffffff, 0x05555555)
    case _ => Halves(0x0fffffff, 0x0aaaaaaa)
  }

  lemma TableKeyHalves(i: nat)
    requires i < 16
    ensures Pc1(TableKey(i)) == TableHalves(i)
  {
    match i
    case 0 => case 1 => case 2 => case 3 => case 4 => case 5 => case 6 => case 7 =>
    case 8 => case 9 => case 10 => case 11 => case 12 => case 13 => case 14 => case _ =>
  }

  /** Evaluated on the table, the condition for opposite schedules holds for all entries but two. */
  lemma TableRotatedIff(i: nat)
    requires i < 16
    ensures Rotated(TableHalves(i), TableHalves(Partner(i))) <==> i != 2 && i != 3
  {
    match i
    case 0 => case 1 => case 2 => case 3 => case 4 => case 5 => case 6 => case 7 =>
    case 8 => case 9 => case 10 => case 11 => case 12 => case 13 => case 14 => case _ =>
  }

  /**
   So a key of the table and its partner have opposite schedules, and undo each other, except for
   the third and the fourth.
   */
  lemma TableIsRightIff(i: nat)
    requires i < 16
    ensures Backward(TableKey(i), TableKey(Partner(i))) <==> i != 2 && i != 3
  {
    hide Pc1, TableKey, TableHalves, Backward, Rotated;
    TableKeyHalves(i);
    TableKeyHalves(Partner(i));
    TableRotatedIff(i);
    BackwardIff(TableKey(i), TableKey(Partner(i)));
  }

  // ---------- All keys with an opposite one ----------

  /** The table with those two entries put right: a weak key has one byte in each half. */
  function RightKey(i: nat): Block
    requires i < 16
  {
    if i == 2 then Block(0x1f1f1f1f, 0x0e0e0e0e) else if i == 3 then Block(0xe0e0e0e0, 0xf1f1f1f1) else TableKey(i)
  }

  function RightHalves(i: nat): Halves
    requires i < 16
  {
    if i == 2 then Halves(0, 0x0fffffff) else if i == 3 then Halves(0x0fffffff, 0) else TableHalves(i)
  }

  lemma RightKeyHalves(i: nat)
    requires i < 16
    ensures Pc1(RightKey(i)) == RightHalves(i)
  {
    if i != 2 && i != 3 {
      hide Pc1, TableKey, TableHalves;
      TableKeyHalves(i);
    }
  }

  lemma RightHalvesRotated(i: nat)
    requires i < 16
    ensures Rotated(RightHalves(i), RightHalves(Partner(i)))
  {
    if i == 2 || i == 3 {
      CornersRotated();
    } else {
      hide Rotated, TableHalves;
      TableRotatedIff(i);
    }
  }

  lemma CornersRotated()
    ensures Rotated(Halves(0, 0x0fffffff), Halves(0, 0x0fffffff))
    ensures Rotated(Halves(0x0fffffff, 0), Halves(0x0fffffff, 0))
  {
  }

  /** All alternating halves are there. */
  lemma SomeRightHalves(h: Halves) returns (i: nat)
    requires Alternates(h.c) && Alternates(h.d)
    ensures i < 16 && RightHalves(i) == h
  {
    if h.c == 0 {
      i := if h.d == 0 then 0 else if h.d == MASK28 then 2 else if h.d == 0x05555555 then 12 else 13;
    } else if h.c == MASK28 {
      i := if h.d == 0 then 3 else if h.d == MASK28 then 1 else if h.d == 0x05555555 then 14 else 15;
    } else if h.c == 0x05555555 {
      i := if h.d == 0 then 8 else if h.d == MASK28 then 10 else if h.d == 0x05555555 then 4 else 6;
    } else {
      i := if h.d == 0 then 9 else if h.d == MASK28 then 11 else if h.d == 0x05555555 then 7 else 5;
    }
  }

  /** Two keys are, but for parity bits, an entry of the table put right and its partner. */
  ghost predicate Listed(key: Block, partner: Block) {
    exists i | 0 <= i < 16 :: SameButParity(key, RightKey(i)) && SameButParity(partner, RightKey(Partner(i)))
  }

  /**
   The table put right is complete: of all keys, exactly those in it and their
   partners have opposite schedules.
   */
  lemma TablePutRightIsComplete(key: Block, partner: Block)
    ensures Backward(key, partner) <==> Listed(key, partner)
  {
    hide Pc1, SameButParity, RightKey, RightHalves, Backward, Alternates, Turn1;
    BackwardIff(key, partner);
    if Backward(key, partner) {
      var i := SomeRightHalves(Pc1(key));
      RightHalvesRotated(i);
      RightKeyHalves(i);
      RightKeyHalves(Partner(i));
      Pc1Decides(key, RightKey(i));
      Pc1Decides(partner, RightKey(Partner(i)));
    }
    if i: nat :| i < 16 && SameButParity(key, RightKey(i)) && SameButParity(partner, RightKey(Partner(i))) {
      RightHalvesRotated(i);
      RightKeyHalves(i);
      RightKeyHalves(Partner(i));
      Pc1Decides(key, RightKey(i));
      Pc1Decides(partner, RightKey(Partner(i)));
    }
  }
}
