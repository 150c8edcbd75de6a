/**
 The frame of the cipher: the swap-xor permutation networks, the one-bit
 rotations and the sixteen rounds, for an arbitrary round function and an
 arbitrary schedule of 32 words (lib/crypto/ecb_encrypt.c).
 */
module Feistel {
  import opened DesLocal

  type KeySchedule = ks: seq<Word> | |ks| == 32 witness seq(32, _ => 0)

  /** What D_ENCRYPT xors into the other half: a function of the half and two schedule words. */
  type RoundFn = (Word, Word, Word) -> Word

  // ---------- PERM_OP ----------

  // PERM_OP(a,b,t,n,m) for the five shift and mask pairs in use: the new
  // values of a and b.

  function PermOp16(a: Word, b: Word): (Word, Word) {
    var t := ((a >> 16) ^ b) & 0x0000ffff;
    (a ^ (t << 16), b ^ t)
  }

  function PermOp8(a: Word, b: Word): (Word, Word) {
    var t := ((a >> 8) ^ b) & 0x00ff00ff;
    (a ^ (t << 8), b ^ t)
  }

  function PermOp4(a: Word, b: Word): (Word, Word) {
    var t := ((a >> 4) ^ b) & 0x0f0f0f0f;
    (a ^ (t << 4), b ^ t)
  }

  function PermOp2(a: Word, b: Word): (Word, Word) {
    var t := ((a >> 2) ^ b) & 0x33333333;
    (a ^ (t << 2), b ^ t)
  }

  function PermOp1(a: Word, b: Word): (Word, Word) {
    var t := ((a >> 1) ^ b) & 0x55555555;
    (a ^ (t << 1), b ^ t)
  }

  lemma PermOp16Twice(a: Word, b: Word)
    ensures var (x, y) := PermOp16(a, b); PermOp16(x, y) == (a, b)
  {
  }

  lemma PermOp8Twice(a: Word, b: Word)
    ensures var (x, y) := PermOp8(a, b); PermOp8(x, y) == (a, b)
  {
  }

  lemma PermOp4Twice(a: Word, b: Word)
    ensures var (x, y) := PermOp4(a, b); PermOp4(x, y) == (a, b)
  {
  }

  lemma PermOp2Twice(a: Word, b: Word)
    ensures var (x, y) := PermOp2(a, b); PermOp2(x, y) == (a, b)
  {
  }

  lemma PermOp1Twice(a: Word, b: Word)
    ensures var (x, y) := PermOp1(a, b); PermOp1(x, y) == (a, b)
  {
  }

  // ---------- IP and FP ----------

  /** PERM_OP(r,l,t,4), PERM_OP(l,r,t,16), PERM_OP(r,l,t,2), PERM_OP(l,r,t,8), PERM_OP(r,l,t,1). */
  function Ip(b: Block): Block {
    var (r1, l1) := PermOp4(b.r, b.l);
    var (l2, r2) := PermOp16(l1, r1);
    var (r3, l3) := PermOp2(r2, l2);
    var (l4, r4) := PermOp8(l3, r3);
    var (r5, l5) := PermOp1(r4, l4);
    Block(l5, r5)
  }

  /** The same steps in the opposite order. */
  function Fp(b: Block): Block {
    var (r1, l1) := PermOp1(b.r, b.l);
    var (l2, r2) := PermOp8(l1, r1);
    var (r3, l3) := PermOp2(r2, l2);
    var (l4, r4) := PermOp16(l3, r3);
    var (r5, l5) := PermOp4(r4, l4);
    Block(l5, r5)
  }

  lemma FpUndoesIp(b: Block)
    ensures Fp(Ip(b)) == b
  {
    hide PermOp1, PermOp2, PermOp4, PermOp8, PermOp16;
    var (r1, l1) := PermOp4(b.r, b.l);
    var (l2, r2) := PermOp16(l1, r1);
    var (r3, l3) := PermOp2(r2, l2);
    var (l4, r4) := PermOp8(l3, r3);
    PermOp1Twice(r4, l4);
    PermOp8Twice(l3, r3);
    PermOp2Twice(r2, l2);
    PermOp16Twice(l1, r1);
    PermOp4Twice(b.r, b.l);
  }

  lemma IpUndoesFp(b: Block)
    ensures Ip(Fp(b)) == b
  {
    hide PermOp1, PermOp2, PermOp4, PermOp8, PermOp16;
    var (r1, l1) := PermOp1(b.r, b.l);
    var (l2, r2) := PermOp8(l1, r1);
    var (r3, l3) := PermOp2(r2, l2);
    var (l4, r4) := PermOp16(l3, r3);
    PermOp4Twice(r4, l4);
    PermOp16Twice(l3, r3);
    PermOp2Twice(r2, l2);
    PermOp8Twice(l1, r1);
    PermOp1Twice(b.r, b.l);
  }

  // ---------- Rotations ----------

  function Rol1(w: Word): Word {
    (w << 1) | (w >> 31)
  }

  function Ror1(w: Word): Word {
    (w >> 1) | (w << 31)
  }

  function Swap(b: Block): Block {
    Block(b.r, b.l)
  }

  /** The rotation after IP, which also undoes the reversal of l and r. */
  function RotateIn(b: Block): Block {
    Block(Rol1(b.r), Rol1(b.l))
  }

  function RotateOut(b: Block): Block {
    Block(Ror1(b.l), Ror1(b.r))
  }

  lemma Ror1Rol1(w: Word)
    ensures Ror1(Rol1(w)) == w && Rol1(Ror1(w)) == w
  {
  }

  lemma RotationsCancel(b: Block)
    ensures RotateOut(RotateIn(b)) == Swap(b)
    ensures RotateIn(RotateOut(b)) == Swap(b)
  {
    hide Rol1, Ror1;
    Ror1Rol1(b.l);
    Ror1Rol1(b.r);
  }

  // ---------- Rounds ----------

  /** The pair of schedule words of round i: ascending to encrypt, descending to decrypt. */
  function RoundKey(ks: KeySchedule, encrypt: bool, i: nat): (Word, Word)
    requires i < 16
  {
    var j := if encrypt then 2 * i else 30 - 2 * i;
    (ks[j], ks[j + 1])
  }

  /** One round in the form of FIPS PUB 46-3: L' = R, R' = L xor f(R, K). */
  function Round(f: RoundFn, k: (Word, Word), b: Block): Block {
    Block(b.r, Xor(b.l, f(b.r, k.0, k.1)))
  }

  function Rounds(f: RoundFn, ks: KeySchedule, encrypt: bool, n: nat, b: Block): Block
    requires n <= 16
  {
    if n == 0 then b else Round(f, RoundKey(ks, encrypt, n - 1), Rounds(f, ks, encrypt, n - 1, b))
  }

  /** The whole cipher on the two words of a block. */
  function Cipher(f: RoundFn, ks: KeySchedule, encrypt: bool, b: Block): Block {
    Fp(RotateOut(Rounds(f, ks, encrypt, 16, RotateIn(Ip(b)))))
  }

  lemma RoundUndone(f: RoundFn, k: (Word, Word), b: Block)
    ensures Round(f, k, Swap(Round(f, k, b))) == Swap(b)
  {
    hide Xor;
    XorTwice(b.l, f(b.r, k.0, k.1));
  }

  /** Running the rounds with the keys in the other order walks back through the same states. */
  lemma {:induction false} RoundsUndone(f: RoundFn, ks: KeySchedule, encrypt: bool, n: nat, b: Block)
    requires n <= 16
    ensures Rounds(f, ks, !encrypt, n, Swap(Rounds(f, ks, encrypt, 16, b))) == Swap(Rounds(f, ks, encrypt, 16 - n, b))
  {
    hide Round;
    if n > 0 {
      RoundsUndone(f, ks, encrypt, n - 1, b);
      assert RoundKey(ks, !encrypt, n - 1) == RoundKey(ks, encrypt, 16 - n);
      RoundUndone(f, RoundKey(ks, encrypt, 16 - n), Rounds(f, ks, encrypt, 16 - n, b));
    }
  }

  /**
   For every round function, every schedule and every block, either direction
   of the cipher undoes the other: each is a bijection on blocks.
   */
  lemma CipherInverse(f: RoundFn, ks: KeySchedule, encrypt: bool, b: Block)
    ensures Cipher(f, ks, !encrypt, Cipher(f, ks, encrypt, b)) == b
  {
    hide Ip, Fp, RotateIn, RotateOut, Rounds;
    var start := RotateIn(Ip(b));
    var end := Rounds(f, ks, encrypt, 16, start);
    IpUndoesFp(RotateOut(end));
    RotationsCancel(end);
    RoundsUndone(f, ks, encrypt, 16, start);
    NoRounds(f, ks, encrypt, start);
    RotationsCancel(Ip(b));
    SwapOutIn(Ip(b));
    FpUndoesIp(b);
  }

  /** What des_encrypt does to a block under a schedule. */
  function Des(f: RoundFn, ks: KeySchedule, encrypt: bool): Block -> Block {
    b => Cipher(f, ks, encrypt, b)
  }

  lemma DesInverse(f: RoundFn, ks: KeySchedule, encrypt: bool)
    ensures forall b :: Des(f, ks, !encrypt)(Des(f, ks, encrypt)(b)) == b
  {
    hide Cipher;
    forall b
      ensures Des(f, ks, !encrypt)(Des(f, ks, encrypt)(b)) == b
    {
      CipherInverse(f, ks, encrypt, b);
    }
  }

  lemma SwapOutIn(b: Block)
    ensures RotateOut(Swap(RotateIn(b))) == b
  {
    hide Rol1, Ror1;
    Ror1Rol1(b.l);
    Ror1Rol1(b.r);
  }

  // ---------- des_encrypt ----------

  /** Two rounds in place, each changing one half, are two rounds with a swap after each. */
  lemma TwoRoundsInPlace(f: RoundFn, k0: (Word, Word), k1: (Word, Word), l: Word, r: Word)
    ensures var l' := Xor(l, f(r, k0.0, k0.1));
            Block(l', Xor(r, f(l', k1.0, k1.1))) == Round(f, k1, Round(f, k0, Block(l, r)))
  {
    hide Xor;
  }

  lemma NoRounds(f: RoundFn, ks: KeySchedule, encrypt: bool, b: Block)
    ensures Rounds(f, ks, encrypt, 0, b) == b
  {
  }

  lemma TwoMoreRounds(f: RoundFn, ks: KeySchedule, encrypt: bool, n: nat, b: Block)
    requires n + 2 <= 16
    ensures Rounds(f, ks, encrypt, n + 2, b) ==
            Round(f, RoundKey(ks, encrypt, n + 1), Round(f, RoundKey(ks, encrypt, n), Rounds(f, ks, encrypt, n, b)))
  {
    hide Round;
    assert Rounds(f, ks, encrypt, n + 1, b) == Round(f, RoundKey(ks, encrypt, n), Rounds(f, ks, encrypt, n, b));
  }

  /** The sixteen rounds of des_encrypt, two to an iteration so that l and r need no swap. */
  method RunRounds(f: RoundFn, ks: KeySchedule, encrypt: bool, start: Block) returns (l: Word, r: Word)
    ensures Block(l, r) == Rounds(f, ks, encrypt, 16, start)
  {
    hide Round, Rounds, Xor;
    l, r := start.l, start.r;
    NoRounds(f, ks, encrypt, start);
    ghost var n := 0;
    if encrypt {
      var i := 0;
      while i < 32
        invariant i == 2 * n && n % 2 == 0 && n <= 16
        invariant Block(l, r) == Rounds(f, ks, encrypt, n, start)
      {
        TwoMoreRounds(f, ks, encrypt, n, start);
        TwoRoundsInPlace(f, (ks[i], ks[i + 1]), (ks[i + 2], ks[i + 3]), l, r);
        l := Xor(l, f(r, ks[i], ks[i + 1]));
        r := Xor(r, f(l, ks[i + 2], ks[i + 3]));
        i, n := i + 4, n + 2;
      }
    } else {
      var i := 30;
      while i > 0
        invariant i == 30 - 2 * n && n % 2 == 0 && n <= 16
        invariant Block(l, r) == Rounds(f, ks, encrypt, n, start)
      {
        TwoMoreRounds(f, ks, encrypt, n, start);
        TwoRoundsInPlace(f, (ks[i], ks[i + 1]), (ks[i - 2], ks[i - 1]), l, r);
        l := Xor(l, f(r, ks[i], ks[i + 1]));
        r := Xor(r, f(l, ks[i - 2], ks[i - 1]));
        i, n := i - 4, n + 2;
      }
    }
  }

  /**
   des_encrypt over the round function that D_ENCRYPT was compiled to.
   The input and output arrays may be the same one.
   */
  method DesEncrypt(f: RoundFn, input: array<Word>, output: array<Word>, ks: KeySchedule, encrypt: bool)
    requires input.Length >= 2 && output.Length >= 2
    modifies output
    ensures Block(output[0], output[1]) == Des(f, ks, encrypt)(old(Block(input[0], input[1])))
    ensures output[2..] == old(output[2..])
  {
    hide PermOp1, PermOp2, PermOp4, PermOp8, PermOp16, Rounds, Rol1, Ror1;
    var l, r := input[0], input[1];

    // IP
    var p := PermOp4(r, l);  r, l := p.0, p.1;
    p := PermOp16(l, r);     l, r := p.0, p.1;
    p := PermOp2(r, l);      r, l := p.0, p.1;
    p := PermOp8(l, r);      l, r := p.0, p.1;
    p := PermOp1(r, l);      r, l := p.0, p.1;

    var t := Rol1(r);
    r := Rol1(l);
    l := t;
    l, r := RunRounds(f, ks, encrypt, Block(l, r));
    l := Ror1(l);
    r := Ror1(r);

    // FP
    p := PermOp1(r, l);   r, l := p.0, p.1;
    p := PermOp8(l, r);   l, r := p.0, p.1;
    p := PermOp2(r, l);   r, l := p.0, p.1;
    p := PermOp16(l, r);  l, r := p.0, p.1;
    p := PermOp4(r, l);   r, l := p.0, p.1;
    output[0] := l;
    output[1] := r;
  }

  /** des_encrypt called, as the chaining modes call it, on local tin and tout. */
  method DesPair(f: RoundFn, b: Block, ks: KeySchedule, encrypt: bool) returns (c: Block)
    ensures c == Des(f, ks, encrypt)(b)
  {
    hide Des;
    var tin, tout := new Word[2], new Word[2];
    tin[0], tin[1] := b.l, b.r;
    DesEncrypt(f, tin, tout, ks, encrypt);
    c := Block(tout[0], tout[1]);
  }
}
