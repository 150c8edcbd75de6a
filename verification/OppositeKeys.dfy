/** Keys whose schedules are each other's read backwards (lib/crypto/set_key.c). */
module OppositeKeys {
  import opened DesLocal
  import opened Feistel
  import opened FipsPermutations
  import opened KeyLaws
  import opened SetKey

  /** A register that one rotation by two places leaves as it is. */
  ghost predicate Alternates(w: Word) {
    w == 0 || w == MASK28 || w == 0x05555555 || w == 0x0aaaaaaa
  }

  lemma AlternatingTurns(w: Word)
    requires Alternates(w)
    ensures Turn2(w) == w && Turn1(Turn1(w)) == w && Turn2(Turn1(w)) == Turn1(w)
  {
  }

  /** Whether the first n rotations are by an odd number of places in all. */
  predicate OddTurns(n: nat) {
    n == 1 || 9 <= n <= 15
  }

  lemma {:induction false} AlternatingTurned(h: Halves, n: nat)
    requires n <= 16 && Alternates(h.c) && Alternates(h.d)
    ensures Turned(h, n) == if OddTurns(n) then Turn(false, h) else h
  {
    hide Turn1, Turn2, Alternates;
    if n > 0 {
      AlternatingTurned(h, n - 1);
      AlternatingTurns(h.c);
      AlternatingTurns(h.d);
    }
  }

  /** The second key's schedule is the first one's read backwards. */
  ghost predicate Backward(key: Block, partner: Block) {
    forall n | 0 <= n < 16 :: RoundPair(partner, n) == RoundPair(key, 15 - n)
  }

  /** Alternating halves, one rotation apart. */
  ghost predicate Rotated(h: Halves, h': Halves) {
    Alternates(h.c) && Alternates(h.d) && h' == Turn(false, h)
  }

  /** Such keys have opposite schedules. */
  lemma RotatedHalvesAreBackward(key: Block, partner: Block)
    requires Rotated(Pc1(key), Pc1(partner))
    ensures Backward(key, partner)
  {
    hide Turn1, Turn2, Alternates, Pc1, SubKey;
    var h := Pc1(key);
    AlternatingTurns(h.c);
    AlternatingTurns(h.d);
    assert Turn(false, Turn(false, h)) == h;
    TurnedAlternates(h);
    forall n | 0 <= n < 16
      ensures RoundPair(partner, n) == RoundPair(key, 15 - n)
    {
      AlternatingTurned(h, 16 - n);
      AlternatingTurned(Turn(false, h), n + 1);
    }
  }

  lemma TurnedAlternates(h: Halves)
    requires Alternates(h.c) && Alternates(h.d)
    ensures Alternates(Turn(false, h).c) && Alternates(Turn(false, h).d)
  {
  }

  // ---------- The other direction ----------

  // Each round looks at 24 of the 28 places of each register.

  ghost predicate SameSeenC(c: Word, c': Word) {
    c & 0x0eddfeff == c' & 0x0eddfeff
  }

  ghost predicate SameSeenD(d: Word, d': Word) {
    d & 0x0dffbdbf == d' & 0x0dffbdbf
  }

  /** Equal pairs of schedule words come from registers that are the same in those places. */
  lemma SubKeySees(h: Halves, h': Halves)
    requires SubKey(h) == SubKey(h')
    ensures SameSeenC(h.c, h'.c) && SameSeenD(h.d, h'.d)
  {
    hide SubKey;
    SubKeySeesC(h, h');
    SubKeySeesD(h, h');
  }

  lemma SubKeySeesC(h: Halves, h': Halves)
    requires SubKey(h) == SubKey(h')
    ensures SameSeenC(h.c, h'.c)
  {
    hide SubKey;
    Pc2First1(h);
    Pc2First1(h');
    Pc2First2(h);
    Pc2First2(h');
    Pc2First3(h);
    Pc2First3(h');
    Pc2First4(h);
    Pc2First4(h');
    Pc2Last1(h);
    Pc2Last1(h');
    Pc2Last2(h);
    Pc2Last2(h');
    Pc2Last3(h);
    Pc2Last3(h');
    Pc2Last4(h);
    Pc2Last4(h');
  }

  lemma SubKeySeesD(h: Halves, h': Halves)
    requires SubKey(h) == SubKey(h')
    ensures SameSeenD(h.d, h'.d)
  {
    hide SubKey;
    Pc2First5(h);
    Pc2First5(h');
    Pc2First6(h);
    Pc2First6(h');
    Pc2First7(h);
    Pc2First7(h');
    Pc2First8(h);
    Pc2First8(h');
    Pc2Last5(h);
    Pc2Last5(h');
    Pc2Last6(h);
    Pc2Last6(h');
    Pc2Last7(h);
    Pc2Last7(h');
    Pc2Last8(h);
    Pc2Last8(h');
  }

  /** What the first, the last and the two middle rounds see of c between them decides it. */
  lemma SeenDecidesC(c: Word, c': Word)
    requires c & !MASK28 == 0 && c' & !MASK28 == 0
    requires SameSeenC(Turn1(c'), c) && SameSeenC(c', Turn1(c))
    requires SameSeenC(EightTurns(c'), Turn1(EightTurns(c))) && SameSeenC(Turn1(EightTurns(c')), EightTurns(c))
    ensures c' == Turn1(c) && Alternates(c)
  {
  }

  lemma SeenDecidesD(d: Word, d': Word)
    requires d & !MASK28 == 0 && d' & !MASK28 == 0
    requires SameSeenD(Turn1(d'), d) && SameSeenD(d', Turn1(d))
    requires SameSeenD(EightTurns(d'), Turn1(EightTurns(d))) && SameSeenD(Turn1(EightTurns(d')), EightTurns(d))
    ensures d' == Turn1(d) && Alternates(d)
  {
  }

  /** The registers in those four rounds. */
  lemma FourRounds(h: Halves)
    requires Below28(h)
    ensures Turned(h, 1) == Turn(false, h) && Turned(h, 16) == h
    ensures var m := Halves(EightTurns(h.c), EightTurns(h.d)); Turned(h, 8) == m && Turned(h, 9) == Turn(false, m)
  {
    hide Turn1, Turn2, EightTurns, Below28;
    TurnsComeBack(h);
    TurnedHalfWay(h);
    assert Turned(h, 0) == h;
  }

  /** Opposite schedules come from such keys alone. */
  lemma BackwardIsRotated(key: Block, partner: Block)
    requires Backward(key, partner)
    ensures Rotated(Pc1(key), Pc1(partner))
  {
    hide Turn1, Turn2, Turned, Alternates, Pc1, SubKey, EightTurns, SameSeenC, SameSeenD;
    var h, h' := Pc1(key), Pc1(partner);
    Pc1Below28(key);
    Pc1Below28(partner);
    FourRounds(h);
    FourRounds(h');
    assert RoundPair(partner, 0) == RoundPair(key, 15) && RoundPair(partner, 15) == RoundPair(key, 0);
    assert RoundPair(partner, 7) == RoundPair(key, 8) && RoundPair(partner, 8) == RoundPair(key, 7);
    SubKeySees(Turned(h', 1), Turned(h, 16));
    SubKeySees(Turned(h', 16), Turned(h, 1));
    SubKeySees(Turned(h', 8), Turned(h, 9));
    SubKeySees(Turned(h', 9), Turned(h, 8));
    SeenDecidesC(h.c, h'.c);
    SeenDecidesD(h.d, h'.d);
  }

  /**
   For every two keys: the schedule of one is the other's read backwards if
   and only if their halves alternate and are one rotation apart.
   */
  lemma BackwardIff(key: Block, partner: Block)
    ensures Backward(key, partner) <==> Rotated(Pc1(key), Pc1(partner))
  {
    hide Backward, Rotated;
    if Rotated(Pc1(key), Pc1(partner)) {
      RotatedHalvesAreBackward(key, partner);
    }
    if Backward(key, partner) {
      BackwardIsRotated(key, partner);
    }
  }

  lemma TurnedBySelfIff(w: Word)
    ensures Alternates(w) && w == Turn1(w) <==> Uniform(w)
  {
  }

  /** A key's schedule reads the same in both directions if and only if its halves are uniform. */
  lemma BackwardSelfIff(key: Block)
    ensures Backward(key, key) <==> Uniform(Pc1(key).c) && Uniform(Pc1(key).d)
  {
    hide Backward, Alternates, Uniform, Turn1, Pc1;
    BackwardIff(key, key);
    TurnedBySelfIff(Pc1(key).c);
    TurnedBySelfIff(Pc1(key).d);
  }

  /** So all sixteen pairs of schedule words are equal if and only if the halves are uniform. */
  lemma OneSubKeyIff(key: Block)
    ensures (forall i, j | 0 <= i < 16 && 0 <= j < 16 :: RoundPair(key, i) == RoundPair(key, j)) <==>
            Uniform(Pc1(key).c) && Uniform(Pc1(key).d)
  {
    hide RoundPair, Pc1, Uniform;
    BackwardSelfIff(key);
    if Uniform(Pc1(key).c) && Uniform(Pc1(key).d) {
      UniformHalvesInvolution(key, key);
    }
  }

  // ---------- What a schedule says of its key ----------

  /** PC1 drops the parity bits and nothing else. */
  lemma Pc1Decides(key: Block, key': Block)
    ensures Pc1(key) == Pc1(key') <==> SameButParity(key, key')
  {
    if SameButParity(key, key') {
      hide Pc1;
      Pc1IgnoresParity(key, key');
    } else {
      Pc1Differs(key, key');
    }
  }

  lemma Pc1Differs(key: Block, key': Block)
    requires !SameButParity(key, key')
    ensures Pc1(key) != Pc1(key')
  {
  }

  lemma TwoViewsDecide(h: Halves, h': Halves)
    requires Below28(h) && Below28(h')
    requires SameSeenC(h.c, h'.c) && SameSeenC(EightTurns(h.c), EightTurns(h'.c))
    requires SameSeenD(h.d, h'.d) && SameSeenD(EightTurns(h.d), EightTurns(h'.d))
    ensures h == h'
  {
  }

  /** Two keys have one schedule if and only if they are the same but for parity bits. */
  lemma SameScheduleIff(key: Block, key': Block)
    ensures Schedule(key) == Schedule(key') <==> SameButParity(key, key')
  {
    hide Pc1, SameButParity, SubKey, EightTurns, SameSeenC, SameSeenD, Turned, Schedule;
    Pc1Decides(key, key');
    if SameButParity(key, key') {
      ScheduleIgnoresParity(key, key');
    } else if Schedule(key) == Schedule(key') {
      var h, h' := Pc1(key), Pc1(key');
      ScheduleRoundKey(key, true, 7);
      ScheduleRoundKey(key', true, 7);
      ScheduleRoundKey(key, true, 15);
      ScheduleRoundKey(key', true, 15);
      Pc1Below28(key);
      Pc1Below28(key');
      FourRounds(h);
      FourRounds(h');
      SubKeySees(Turned(h, 8), Turned(h', 8));
      SubKeySees(Turned(h, 16), Turned(h', 16));
      TwoViewsDecide(h, h');
      assert false;
    }
  }

  // ---------- Ciphers that undo each other ----------

  /** Enciphering under keys with opposite schedules, one after the other, is the identity. */
  lemma BackwardUndoes(f: RoundFn, key: Block, partner: Block, b: Block)
    requires Backward(key, partner)
    ensures Des(f, Schedule(partner), true)(Des(f, Schedule(key), true)(b)) == b
  {
    hide RoundPair, Schedule, Ip, Fp, RotateIn, RotateOut, Rounds;
    var ks, ks' := Schedule(key), Schedule(partner);
    forall i | 0 <= i < 16
      ensures RoundKey(ks', true, i) == RoundKey(ks, false, i)
    {
      ScheduleRoundKey(partner, true, i);
      ScheduleRoundKey(key, false, i);
    }
    var c := Cipher(f, ks, true, b);
    SameRounds(f, ks', ks, 16, RotateIn(Ip(c)));
    CipherInverse(f, ks, true, b);
  }
}
