/** What des_set_key checks when des_check_key is on (lib/crypto/set_key.c). */
module KeyCheck {
  import opened DesLocal
  import opened OddParity

  /** The weak and the semi-weak keys. */
  function WeakKeys(): (ks: seq<seq<Byte>>)
    ensures |ks| == 16 && forall i | 0 <= i < 16 :: |ks[i]| == 8
  {
    [
      [0x01, 0x01, 0x01, 0x01, 0x01, 0x01, 0x01, 0x01],
      [0xfe, 0xfe, 0xfe, 0xfe, 0xfe, 0xfe, 0xfe, 0xfe],
      [0x1f, 0x1f, 0x1f, 0x1f, 0x1f, 0x1f, 0x1f, 0x1f],
      [0xe0, 0xe0, 0xe0, 0xe0, 0xe0, 0xe0, 0xe0, 0xe0],
      [0x01, 0xfe, 0x01, 0xfe, 0x01, 0xfe, 0x01, 0xfe],
      [0xfe, 0x01, 0xfe, 0x01, 0xfe, 0x01, 0xfe, 0x01],
      [0x1f, 0xe0, 0x1f, 0xe0, 0x0e, 0xf1, 0x0e, 0xf1],
      [0xe0, 0x1f, 0xe0, 0x1f, 0xf1, 0x0e, 0xf1, 0x0e],
      [0x01, 0xe0, 0x01, 0xe0, 0x01, 0xf1, 0x01, 0xf1],
      [0xe0, 0x01, 0xe0, 0x01, 0xf1, 0x01, 0xf1, 0x01],
      [0x1f, 0xfe, 0x1f, 0xfe, 0x0e, 0xfe, 0x0e, 0xfe],
      [0xfe, 0x1f, 0xfe, 0x1f, 0xfe, 0x0e, 0xfe, 0x0e],
      [0x01, 0x1f, 0x01, 0x1f, 0x01, 0x0e, 0x01, 0x0e],
      [0x1f, 0x01, 0x1f, 0x01, 0x0e, 0x01, 0x0e, 0x01],
      [0xe0, 0xfe, 0xe0, 0xfe, 0xf1, 0xfe, 0xf1, 0xfe],
      [0xfe, 0xe0, 0xfe, 0xe0, 0xfe, 0xf1, 0xfe, 0xf1]
    ]
  }

  /** check_parity. */
  method CheckParity(key: array<Byte>) returns (ok: bool)
    requires key.Length == 8
    ensures ok == AllOdd(key[..])
  {
    hide odd_parity, ParityBit;
    for i := 0 to 8
      invariant forall j | 0 <= j < i :: ParityBit(key[j]) == 1
    {
      OddStays(key[i]);
      if key[i] != odd_parity(key[i]) {
        assert ParityBit(key[..][i]) != 1;
        return false;
      }
    }
    return true;
  }

  /** Some key of the table differs from this one in its first bytes. */
  predicate DiffersFromOne(key: seq<Byte>, size: nat)
    requires |key| == 8 && size <= 8
  {
    exists i | 0 <= i < 16 :: WeakKeys()[i][..size] != key[..size]
  }

  /** des_is_weak_key; size is that of a pointer, which is what sizeof(key) gives. */
  method DesIsWeakKey(key: array<Byte>, size: nat) returns (weak: bool)
    requires key.Length == 8 && size <= 8
    ensures weak == DiffersFromOne(key[..], size)
  {
    hide WeakKeys;
    assert key[..][..size] == key[..size];
    for i := 0 to 16
      invariant forall j | 0 <= j < i :: WeakKeys()[j][..size] == key[..size]
    {
      if WeakKeys()[i][..size] != key[..size] {
        return true;
      }
    }
    return false;
  }

  /**
   The loop asks for one difference instead of one match, and the table's keys
   differ, so every key is called weak.
   */
  lemma EveryKeyIsCalledWeak(key: seq<Byte>, size: nat)
    requires |key| == 8 && 0 < size <= 8
    ensures DiffersFromOne(key, size)
  {
    var a, b := WeakKeys()[0], WeakKeys()[1];
    assert a[..size][0] != b[..size][0];
    assert a[..size] != key[..size] || b[..size] != key[..size];
  }

  /** What des_set_key returns. */
  function Verdict(check: bool, key: seq<Byte>, size: nat): int
    requires |key| == 8 && size <= 8
  {
    if !check then 0 else if !AllOdd(key) then -1 else if DiffersFromOne(key, size) then -2 else 0
  }

  /** So a key is accepted if and only if checking is off, and else the parity alone decides how it is refused. */
  lemma AcceptedIffUnchecked(check: bool, key: seq<Byte>, size: nat)
    requires |key| == 8 && 0 < size <= 8
    ensures Verdict(check, key, size) == 0 <==> !check
    ensures Verdict(check, key, size) == -1 <==> check && exists i | 0 <= i < 8 :: ParityBit(key[i]) == 0
    ensures Verdict(check, key, size) == -2 <==> check && forall i | 0 <= i < 8 :: ParityBit(key[i]) == 1
  {
    hide ParityBit;
    EveryKeyIsCalledWeak(key, size);
    forall i | 0 <= i < 8
      ensures ParityBit(key[i]) == 0 || ParityBit(key[i]) == 1
    {
      OneBit(key[i]);
    }
  }

  lemma OneBit(b: Byte)
    ensures ParityBit(b) == 0 || ParityBit(b) == 1
  {
  }
}
