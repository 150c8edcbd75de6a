/** Electronic code book (lib/crypto/ecb_encrypt.c). */
module EcbEncrypt {
  import opened DesLocal
  import opened Blocks
  import opened Feistel

  /** des_ecb_encrypt on the block at a given place; input and output may be the same array. */
  method DesEcbEncrypt(f: RoundFn, input: array<Byte>, output: array<Byte>, at: nat, ks: KeySchedule, encrypt: bool)
    requires at + 8 <= input.Length && at + 8 <= output.Length
    modifies output
    ensures Stored(old(output[..]), output[..], at, Store(Des(f, ks, encrypt)(old(Load(input[at..at + 8])))))
  {
    hide Load, Store, Des;
    var b := Load(input[at..at + 8]);
    var ll := new Word[2];
    ll[0], ll[1] := b.l, b.r;
    DesEncrypt(f, ll, ll, ks, encrypt);
    b := Block(ll[0], ll[1]);
    StoreAt(output, at, b);
  }
}
