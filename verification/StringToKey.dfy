/** des_set_odd_parity (lib/crypto/set_key.c) and des_string_to_key (lib/crypto/string2key.c). */
module StringToKey {
  import opened DesLocal
  import opened OddParity
  import opened Feistel
  import opened SetKey
  import opened KeyLaws
  import opened CbcCksum
  import opened PasswordFold

  // ---------- des_set_odd_parity ----------

  /** The bytes of a key through the table. */
  function WithOddParity(key: seq<Byte>): (k: seq<Byte>)
    ensures |k| == |key| && AllOdd(k)
  {
    seq(|key|, i requires 0 <= i < |key| => odd_parity(key[i]))
  }

  method DesSetOddParity(key: array<Byte>)
    requires key.Length == 8
    modifies key
    ensures key[..] == WithOddParity(old(key[..]))
  {
    hide odd_parity;
    for i := 0 to 8
      invariant forall j | 0 <= j < i :: key[j] == odd_parity(old(key[j]))
      invariant forall j | i <= j < 8 :: key[j] == old(key[j])
    {
      key[i] := odd_parity(key[i]);
    }
  }

  lemma ParityKeepsHighBits(a: seq<Byte>, b: seq<Byte>)
    requires |a| == |b| == 4 && forall i | 0 <= i < 4 :: a[i] & 0xfe == b[i] & 0xfe
    ensures Agree(C2l(a), C2l(b), 0xfefefefe)
  {
  }

  /** With key checking off, fixing the parity of a key does not change its schedule. */
  lemma OddParityKeepsSchedule(key: seq<Byte>)
    requires |key| == 8
    ensures Schedule(Load(WithOddParity(key))) == Schedule(Load(key))
  {
    hide odd_parity, C2l, Agree, Schedule;
    var k := WithOddParity(key);
    ParityKeepsHighBits(key[..4], k[..4]);
    ParityKeepsHighBits(key[4..], k[4..]);
    ScheduleIgnoresParity(Load(key), Load(k));
  }

  // ---------- des_string_to_key ----------

  /** The fan-folded password with odd parity, which is key and initial vector of the checksum. */
  function FoldedKey(str: seq<Byte>): (k: seq<Byte>)
    ensures |k| == 8
  {
    WithOddParity(FanFold(str))
  }

  function StringKey(f: RoundFn, str: seq<Byte>): (k: seq<Byte>)
    ensures |k| == 8 && AllOdd(k)
  {
    var folded := Load(FoldedKey(str));
    WithOddParity(Store(Cksum(Des(f, Schedule(folded), true), folded, str)))
  }

  /** The loop over the characters of the password. */
  method FoldPassword(str: array<Byte>, key: array<Byte>)
    requires key.Length == 8 && key != str
    modifies key
    ensures key[..] == FanFold(str[..])
  {
    hide ReverseSteps, Reversed, XorByte, FanFold, FoldByte, PieceByte;
    for i := 0 to 8
      invariant key[..i] == Zeros(i)
    {
      key[i] := 0;
    }
    FanFoldEmpty();
    var length := str.Length;
    assert str[..0] == [];
    for i := 0 to length
      invariant key[..] == FanFold(str[..i])
    {
      FoldCharIsFanFold(str[..], i);
      assert str[..][..i] == str[..i] && str[..][..i + 1] == str[..i + 1];
      var j := str[i];
      ghost var before := key[..];
      if i % 16 < 8 {
        key[i % 8] := XorByte(key[i % 8], j << 1);
      } else {
        ReverseStepsReverse(j);
        key[7 - i % 8] := XorByte(key[7 - i % 8], ReverseSteps(j));
      }
      assert key[..] == FoldChar(before, str[i], i);
    }
    assert str[..length] == str[..];
  }

  /** des_string_to_key. */
  method DesStringToKey(f: RoundFn, str: array<Byte>, key: array<Byte>)
    requires key.Length == 8 && key != str
    modifies key
    ensures key[..] == StringKey(f, str[..])
  {
    hide Load, Store, Schedule, Des, Cksum, FanFold, WithOddParity;
    FoldPassword(str, key);
    DesSetOddParity(key);
    ghost var folded := Load(key[..]);
    var ks := new Word[32];
    var r := DesSetKey(key, ks, false, 8);
    assert str[..][..str.Length] == str[..];
    var sum := DesCbcCksum(f, str, key, str.Length, ks[..], key);
    assert key[..] == Store(Cksum(Des(f, Schedule(folded), true), folded, str[..]));
    DesSetOddParity(key);
  }
}
