/** The library's DES is the data encryption algorithm of FIPS PUB 46-3, for every key and every block. */
module FipsAgreement {
  import opened DesLocal
  import opened Feistel
  import opened DEncrypt
  import opened SetKey
  import opened WordBits
  import opened FipsPermutations
  import opened FipsRounds
  import Fips46

  // ---------- Keys ----------

  lemma {:induction false} RegistersAre(key: Block, n: nat)
    requires n <= 16
    ensures var h := Turned(Pc1(key), n);
            RegisterBits(h.c) == Fips46.C(BlockBits(key), n) && RegisterBits(h.d) == Fips46.D(BlockBits(key), n)
  {
    hide Pc1, Turn1, Turn2, RegisterBits, BlockBits, Fips46.ShiftedLeft;
    if n == 0 {
      Pc1IsChoice1(key);
    } else {
      RegistersAre(key, n - 1);
      var h := Turned(Pc1(key), n - 1);
      Pc1Below28(key);
      TurnsStayBelow28(Pc1(key), n - 1);
      TurnIsLeftShift(h.c);
      TurnIsLeftShift(h.d);
      ShiftsAgree(n);
    }
  }

  lemma ShiftsAgree(n: nat)
    requires 1 <= n <= 16
    ensures Fips46.LeftShifts(n) == if SHIFTS2[n - 1] then 2 else 1
  {
  }

  /** The two schedule words of each round are the key Kn. */
  lemma KeysAre(key: Block, n: nat)
    requires n < 16
    ensures KeyBits(RoundPair(key, n)) == Fips46.K(BlockBits(key), n + 1)
  {
    hide Pc1, Turned, SubKey, RegisterBits, BlockBits, KeyBits, Fips46.C, Fips46.D, Fips46.Chosen2;
    RegistersAre(key, n + 1);
    SubKeyIsChoice2(Turned(Pc1(key), n + 1));
  }

  // ---------- Iterations ----------

  lemma XorHalf(a: Word, b: Word)
    ensures HalfBits(Xor(a, b)) == Fips46.Xored(HalfBits(a), HalfBits(b))
  {
    hide Bit, Xor;
    forall i | 0 <= i < 32
      ensures HalfBits(Xor(a, b))[i] == Fips46.Xored(HalfBits(a), HalfBits(b))[i]
    {
      XorBit(a, b, (i + 1) % 32);
    }
  }

  lemma {:induction false} RoundsAreIterations(key: Block, encrypt: bool, n: nat, b: Block)
    requires n <= 16
    ensures var x := Rounds(RoundF, Schedule(key), encrypt, n, RotateIn(Ip(b)));
            Fips46.LR(HalfBits(x.l), HalfBits(x.r)) == Fips46.Iterations(BlockBits(key), encrypt, n, BlockBits(b))
  {
    hide RoundF, Schedule, RotateIn, Ip, HalfBits, BlockBits, RoundPair, KeyBits, RoundKey, Xor, Fips46.F,
      Fips46.K, Fips46.Xored, Fips46.InitiallyPermuted;
    if n == 0 {
      IpIsInitialPermutation(b);
    } else {
      RoundsAreIterations(key, encrypt, n - 1, b);
      var x := Rounds(RoundF, Schedule(key), encrypt, n - 1, RotateIn(Ip(b)));
      var i := if encrypt then n - 1 else 16 - n;
      ScheduleRoundKey(key, encrypt, n - 1);
      KeysAre(key, i);
      RoundIsF(x.r, RoundPair(key, i));
      XorHalf(x.l, RoundF(x.r, RoundPair(key, i).0, RoundPair(key, i).1));
    }
  }

  // ---------- The inverse permutation ----------

  lemma InverseOfIP(n: nat)
    requires 1 <= n <= 64
    ensures Fips46.IP(Fips46.IPInverse(n)) == n
  {
  }

  lemma InverselyOfInitially(b: Fips46.Bits)
    requires |b| == 64
    ensures Fips46.InverselyPermuted(Fips46.InitiallyPermuted(b)) == b
  {
    hide Fips46.IP, Fips46.IPInverse;
    forall i | 0 <= i < 64
      ensures Fips46.InverselyPermuted(Fips46.InitiallyPermuted(b))[i] == b[i]
    {
      InverseOfIP(i + 1);
    }
  }

  /** The last rotation and FP are the inverse initial permutation of the preoutput. */
  lemma LastStep(x: Block)
    ensures BlockBits(Fp(RotateOut(x))) == Fips46.InverselyPermuted(HalfBits(x.r) + HalfBits(x.l))
  {
    hide RotateIn, RotateOut, Ip, Fp, HalfBits, BlockBits, Fips46.InitiallyPermuted, Fips46.InverselyPermuted;
    var c := Fp(RotateOut(x));
    IpIsInitialPermutation(c);
    IpUndoesFp(RotateOut(x));
    RotationsCancel(x);
    InverselyOfInitially(BlockBits(c));
  }

  /**
   des_set_key and des_encrypt compute the data encryption algorithm of the
   standard: the same 64 bits for every key and every block, enciphering and
   deciphering.
   */
  lemma DesIsFips46(key: Block, encrypt: bool, b: Block)
    ensures BlockBits(Des(RoundF, Schedule(key), encrypt)(b)) == Fips46.Output(BlockBits(key), encrypt, BlockBits(b))
  {
    hide RoundF, Schedule, RotateIn, RotateOut, Ip, Fp, Rounds, HalfBits, BlockBits, Fips46.Iterations,
      Fips46.InverselyPermuted;
    RoundsAreIterations(key, encrypt, 16, b);
    LastStep(Rounds(RoundF, Schedule(key), encrypt, 16, RotateIn(Ip(b))));
  }
}
