/** The key schedule (lib/crypto/set_key.c). */
module SetKey {
  import opened DesLocal
  import opened Feistel
  import opened KeyCheck
  import opened OddParity
  import opened SkTables

  /** The 28-bit registers c and d. */
  datatype Halves = Halves(c: Word, d: Word)

  const MASK28: Word := 0x0fffffff

  ghost predicate Below28(h: Halves) {
    h.c & !MASK28 == 0 && h.d & !MASK28 == 0
  }

  // ---------- PC1 ----------

  /** HPERM_OP(a,t,-2,0xcccc0000). */
  function HPermOp(a: Word): Word {
    var t := ((a << 18) ^ a) & 0xcccc0000;
    a ^ t ^ (t >> 18)
  }

  /** The swap-xor steps before the last byte shuffle, on c and d. */
  function Pc1Swaps(key: Block): Block {
    var (d1, c1) := PermOp4(key.r, key.l);
    var c2 := HPermOp(c1);
    var d2 := HPermOp(d1);
    var (d3, c3) := PermOp1(d2, c2);
    var (c4, d4) := PermOp8(c3, d3);
    var (d5, c5) := PermOp1(d4, c4);
    Block(c5, d5)
  }

  /** The new d: three bytes of the old one in the opposite order, below the top of c. */
  function Pc1D(top: Word, low: Word, middle: Word, high: Word): Word {
    (low << 16) | middle | (high >> 16) | (top >> 4)
  }

  function Pc1Split(b: Block): Halves {
    Halves(b.l & MASK28, Pc1D(b.l & 0xf0000000, b.r & 0x000000ff, b.r & 0x0000ff00, b.r & 0x00ff0000))
  }

  function Pc1(key: Block): Halves {
    Pc1Split(Pc1Swaps(key))
  }

  // ---------- Rotations ----------

  /** shifts2: which of the sixteen rotations are by two places. */
  const SHIFTS2: seq<bool> :=
    [false, false, true, true, true, true, true, true, false, true, true, true, true, true, true, false]

  function Turn1(w: Word): Word {
    ((w >> 1) | (w << 27)) & MASK28
  }

  function Turn2(w: Word): Word {
    ((w >> 2) | (w << 26)) & MASK28
  }

  function Turn(two: bool, h: Halves): Halves {
    if two then Halves(Turn2(h.c), Turn2(h.d)) else Halves(Turn1(h.c), Turn1(h.d))
  }

  /** The registers after the first n of the sixteen rotations. */
  function Turned(h: Halves, n: nat): Halves
    requires n <= 16
  {
    if n == 0 then h else Turn(SHIFTS2[n - 1], Turned(h, n - 1))
  }

  // ---------- PC2 ----------

  // The four six-bit indices taken from each register.

  function CIndices(c: Word): Quad {
    Quad(Low6(c), Low6(((c >> 6) & 0x03) | ((c >> 7) & 0x3c)), Low6(((c >> 13) & 0x0f) | ((c >> 14) & 0x30)),
         Low6(((c >> 20) & 0x01) | ((c >> 21) & 0x06) | ((c >> 22) & 0x38)))
  }

  function DIndices(d: Word): Quad {
    Quad(Low6(d), Low6(((d >> 7) & 0x03) | ((d >> 8) & 0x3c)), Low6(d >> 15),
         Low6(((d >> 21) & 0x0f) | ((d >> 22) & 0x30)))
  }

  function Or4(a: Word, b: Word, c: Word, d: Word): Word {
    a | b | c | d
  }

  function SWord(i: Quad): Word {
    Or4(Skb0(i.a), Skb1(i.b), Skb2(i.c), Skb3(i.d))
  }

  function TWord(i: Quad): Word {
    Or4(Skb4(i.a), Skb5(i.b), Skb6(i.c), Skb7(i.d))
  }

  function Word0(s: Word, t: Word): Word {
    (t << 16) | (s & 0x0000ffff)
  }

  function Word1(s: Word, t: Word): Word {
    var x := (s >> 16) | (t & 0xffff0000);
    (x << 4) | (x >> 28)
  }

  /** The two schedule words made from the rotated registers. */
  function SubKey(h: Halves): (Word, Word) {
    var s, t := SWord(CIndices(h.c)), TWord(DIndices(h.d));
    (Word0(s, t), Word1(s, t))
  }

  // ---------- des_set_key ----------

  /** The pair of words of round n+1. */
  function RoundPair(key: Block, n: nat): (Word, Word)
    requires n < 16
  {
    SubKey(Turned(Pc1(key), n + 1))
  }

  function Schedule(key: Block): KeySchedule {
    seq(32, i requires 0 <= i < 32 => if i % 2 == 0 then RoundPair(key, i / 2).0 else RoundPair(key, i / 2).1)
  }

  lemma ScheduleRoundKey(key: Block, encrypt: bool, i: nat)
    requires i < 16
    ensures RoundKey(Schedule(key), encrypt, i) == RoundPair(key, if encrypt then i else 15 - i)
  {
    hide RoundPair;
  }

  lemma NextPair(key: Block, i: nat, h: Halves)
    requires i < 16 && h == Turned(Pc1(key), i)
    ensures var next := Turn(SHIFTS2[i], h);
            next == Turned(Pc1(key), i + 1) && RoundPair(key, i) == SubKey(next)
  {
    hide Pc1, Turn, SubKey;
  }

  lemma ScheduleFromPairs(key: Block, ks: seq<Word>)
    requires |ks| == 32
    requires forall j | 0 <= j < 16 :: (ks[2 * j], ks[2 * j + 1]) == RoundPair(key, j)
    ensures ks == Schedule(key)
  {
    hide RoundPair;
    forall i | 0 <= i < 32
      ensures ks[i] == Schedule(key)[i]
    {
      assert (ks[2 * (i / 2)], ks[2 * (i / 2) + 1]) == RoundPair(key, i / 2);
    }
  }

  /** des_set_key, where check is des_check_key; a refused key leaves the schedule as it was. */
  method DesSetKey(key: array<Byte>, schedule: array<Word>, check: bool, pointerSize: nat) returns (r: int)
    requires key.Length == 8 && schedule.Length == 32 && pointerSize <= 8
    modifies schedule
    ensures r == Verdict(check, key[..], pointerSize)
    ensures schedule[..] == if r == 0 then Schedule(Load(key[..])) else old(schedule[..])
  {
    hide Schedule, Load, AllOdd, DiffersFromOne;
    if check {
      var odd := CheckParity(key);
      if !odd {
        return -1;
      }
      var weak := DesIsWeakKey(key, pointerSize);
      if weak {
        return -2;
      }
    }
    SetSchedule(key, schedule);
    return 0;
  }

  /** The schedule is written two words at a time. */
  method SetSchedule(key: array<Byte>, schedule: array<Word>)
    requires key.Length == 8 && schedule.Length == 32
    modifies schedule
    ensures schedule[..] == Schedule(Load(key[..]))
  {
    hide Load, Pc1Swaps, Pc1Split, Turn1, Turn2, CIndices, DIndices, SWord, TWord, Word0, Word1, Turned,
      RoundPair, Schedule;
    var b := Load(key[..]);
    var h := Pc1Split(Pc1Swaps(b));
    var c, d := h.c, h.d;
    Unturned(h);
    var k := 0;
    for i := 0 to 16
      invariant k == 2 * i
      invariant Halves(c, d) == Turned(Pc1(b), i)
      invariant forall j | 0 <= j < i :: (schedule[2 * j], schedule[2 * j + 1]) == RoundPair(b, j)
    {
      NextPair(b, i, Halves(c, d));
      if SHIFTS2[i] {
        c, d := Turn2(c), Turn2(d);
      } else {
        c, d := Turn1(c), Turn1(d);
      }
      var s := SWord(CIndices(c));
      var t := TWord(DIndices(d));
      schedule[k] := Word0(s, t);
      k := k + 1;
      schedule[k] := Word1(s, t);
      k := k + 1;
    }
    ScheduleFromPairs(b, schedule[..]);
  }

  lemma Unturned(h: Halves)
    ensures Turned(h, 0) == h
  {
  }

  // ---------- The registers stay in 28 bits and come back ----------

  lemma TurnsStayBelow28(h: Halves, n: nat)
    requires n <= 16 && Below28(h)
    ensures Below28(Turned(h, n))
  {
    if n > 0 {
      hide Turned;
      TurnBelow28(SHIFTS2[n - 1], Turned(h, n - 1));
    }
  }

  lemma TurnBelow28(two: bool, h: Halves)
    ensures Below28(Turn(two, h))
  {
  }

  lemma Pc1Below28(key: Block)
    ensures Below28(Pc1(key))
  {
    hide Pc1Swaps;
    SplitBelow28(Pc1Swaps(key));
  }

  lemma SplitBelow28(b: Block)
    ensures Below28(Pc1Split(b))
  {
  }
}
