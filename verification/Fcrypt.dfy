/** The core of crypt: 25 fused, salted iterations of the cipher (lib/crypto/fcrypt.c). */
module Fcrypt {
  import opened DesLocal
  import opened Feistel
  import opened DEncrypt

  // ---------- The salted D_ENCRYPT ----------

  /** v=(R^(R>>16)), u=(v&E), u^(u<<16)^R. */
  function Stir(r: Word, e: Word): Word {
    var u := (r ^ (r >> 16)) & e;
    (u ^ (u << 16)) ^ r
  }

  /**
   For a mask of bits below 16, as both salt masks are, the stirring is a
   conditional swap: each bit j of the mask exchanges bits j and j+16, and
   every other bit stays.
   */
  lemma StirSwaps(r: Word, e: Word)
    requires e & 0xffff0000 == 0
    ensures Stir(r, e) & e == (r >> 16) & e
    ensures (Stir(r, e) >> 16) & e == r & e
    ensures Stir(r, e) & !(e | (e << 16)) == r & !(e | (e << 16))
  {
  }

  /** t=(t>>4)|(t<<28) and the indices of the odd tables. */
  function StirredOddIndices(r: Word, e1: Word, k1: Word): Quad {
    var t := Stir(r, e1) ^ k1;
    Sixes((t >> 4) | (t << 28))
  }

  function StirredEvenIndices(r: Word, e0: Word, k0: Word): Quad {
    Sixes(Stir(r, e0) ^ k0)
  }

  /** The salted round: u is stirred with E0 and t with E1. */
  function SaltedRoundF(e0: Word, e1: Word): RoundFn {
    (r: Word, k0: Word, k1: Word) => SpOr(StirredEvenIndices(r, e0, k0), StirredOddIndices(r, e1, k1))
  }

  lemma UnsaltedIndices(r: Word, k0: Word, k1: Word)
    ensures StirredEvenIndices(r, 0, k0) == EvenIndices(r, k0)
    ensures StirredOddIndices(r, 0, k1) == OddIndices(r, k1)
  {
  }

  lemma UnsaltedRoundIsRound(r: Word, k0: Word, k1: Word)
    ensures SaltedRoundF(0, 0)(r, k0, k1) == RoundF(r, k0, k1)
  {
    hide SpOr, StirredEvenIndices, StirredOddIndices, EvenIndices, OddIndices;
    UnsaltedIndices(r, k0, k1);
  }

  // ---------- Twenty-five iterations ----------

  /** n successive calls of des_encrypt. */
  function Iterated(f: RoundFn, ks: KeySchedule, n: nat, b: Block): Block {
    if n == 0 then b else Des(f, ks, true)(Iterated(f, ks, n - 1, b))
  }

  /** The l and r of body after n of its iterations. */
  function BodyState(f: RoundFn, ks: KeySchedule, n: nat): Block {
    if n == 0 then Block(0, 0) else Swap(Rounds(f, ks, true, 16, BodyState(f, ks, n - 1)))
  }

  lemma ZeroBlock()
    ensures RotateIn(Ip(Block(0, 0))) == Block(0, 0)
  {
  }

  /** FP followed by IP cancels, so the state of body is what des_encrypt starts its rounds from. */
  lemma {:induction false} BodyStateIsInside(f: RoundFn, ks: KeySchedule, n: nat)
    ensures BodyState(f, ks, n) == RotateIn(Ip(Iterated(f, ks, n, Block(0, 0))))
  {
    hide Ip, Fp, RotateIn, RotateOut, Rounds;
    if n == 0 {
      ZeroBlock();
    } else {
      BodyStateIsInside(f, ks, n - 1);
      var x := Rounds(f, ks, true, 16, BodyState(f, ks, n - 1));
      IpUndoesFp(RotateOut(x));
      RotationsCancel(x);
    }
  }

  /** What body returns after n iterations: the last swap undone, the rotation, FP. */
  function BodyResult(f: RoundFn, ks: KeySchedule, n: nat): Block {
    Fp(RotateOut(Swap(BodyState(f, ks, n))))
  }

  /** For every round function, so for every salt: body is repeated des_encrypt of the zero block. */
  lemma BodyIsIterated(f: RoundFn, ks: KeySchedule, n: nat)
    requires n > 0
    ensures BodyResult(f, ks, n) == Iterated(f, ks, n, Block(0, 0))
  {
    hide Ip, Fp, RotateIn, RotateOut, Rounds;
    BodyStateIsInside(f, ks, n - 1);
  }

  /** With both masks zero it is the ordinary cipher that is repeated. */
  lemma {:induction false} UnsaltedRounds(ks: KeySchedule, n: nat, b: Block)
    requires n <= 16
    ensures Rounds(SaltedRoundF(0, 0), ks, true, n, b) == Rounds(RoundF, ks, true, n, b)
  {
    hide SaltedRoundF, RoundF, Xor;
    if n > 0 {
      UnsaltedRounds(ks, n - 1, b);
      var s, k := Rounds(RoundF, ks, true, n - 1, b), RoundKey(ks, true, n - 1);
      UnsaltedRoundIsRound(s.r, k.0, k.1);
    }
  }

  lemma {:induction false} UnsaltedIterated(ks: KeySchedule, n: nat, b: Block)
    ensures Iterated(SaltedRoundF(0, 0), ks, n, b) == Iterated(RoundF, ks, n, b)
  {
    hide SaltedRoundF, RoundF, Rounds, Ip, Fp, RotateIn, RotateOut;
    if n > 0 {
      UnsaltedIterated(ks, n - 1, b);
      UnsaltedRounds(ks, 16, RotateIn(Ip(Iterated(RoundF, ks, n - 1, b))));
    }
  }

  /** body with Eswap0 and Eswap1: two words for crypt to encode. */
  method Body(ks: KeySchedule, eswap0: Word, eswap1: Word) returns (out0: Word, out1: Word)
    ensures Block(out0, out1) == Iterated(SaltedRoundF(eswap0, eswap1), ks, 25, Block(0, 0))
    ensures eswap0 == 0 && eswap1 == 0 ==> Block(out0, out1) == Iterated(RoundF, ks, 25, Block(0, 0))
  {
    hide PermOp1, PermOp2, PermOp4, PermOp8, PermOp16, Rounds, Rol1, Ror1, Iterated, SaltedRoundF, RoundF;
    var f := SaltedRoundF(eswap0, eswap1);
    var l, r: Word := 0, 0;
    for j := 0 to 25
      invariant Block(l, r) == BodyState(f, ks, j)
    {
      l, r := RunRounds(f, ks, true, Block(l, r));
      var t := l;
      l := r;
      r := t;
    }
    var t := r;
    r := Ror1(l);
    l := Ror1(t);

    var p := PermOp1(r, l);   r, l := p.0, p.1;
    p := PermOp8(l, r);       l, r := p.0, p.1;
    p := PermOp2(r, l);       r, l := p.0, p.1;
    p := PermOp16(l, r);      l, r := p.0, p.1;
    p := PermOp4(r, l);       r, l := p.0, p.1;
    BodyIsIterated(f, ks, 25);
    UnsaltedIterated(ks, 25, Block(0, 0));
    out0, out1 := l, r;
  }
}
