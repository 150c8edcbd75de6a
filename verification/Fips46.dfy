/**
 The data encryption algorithm as FIPS PUB 46-3 writes it, on strings of bits
 numbered from 1, the leftmost bit first.
 */
module Fips46 {
  type Bits = seq<bool>

  function Xored(a: Bits, b: Bits): (r: Bits)
    requires |a| == |b|
    ensures |r| == |a|
  {
    seq(|a|, i requires 0 <= i < |a| => a[i] != b[i])
  }

  // ---------- Tables ----------

  /** Initial permutation: bit n of the result is this bit of the input. */
  function IP(n: nat): (m: nat)
    requires 1 <= n <= 64
    ensures 1 <= m <= 64
  {
    match n
    case 1 => 58 case 2 => 50 case 3 => 42 case 4 => 34 case 5 => 26 case 6 => 18 case 7 => 10 case 8 => 2
    case 9 => 60 case 10 => 52 case 11 => 44 case 12 => 36 case 13 => 28 case 14 => 20 case 15 => 12 case 16 => 4
    case 17 => 62 case 18 => 54 case 19 => 46 case 20 => 38 case 21 => 30 case 22 => 22 case 23 => 14 case 24 => 6
    case 25 => 64 case 26 => 56 case 27 => 48 case 28 => 40 case 29 => 32 case 30 => 24 case 31 => 16 case 32 => 8
    case 33 => 57 case 34 => 49 case 35 => 41 case 36 => 33 case 37 => 25 case 38 => 17 case 39 => 9 case 40 => 1
    case 41 => 59 case 42 => 51 case 43 => 43 case 44 => 35 case 45 => 27 case 46 => 19 case 47 => 11 case 48 => 3
    case 49 => 61 case 50 => 53 case 51 => 45 case 52 => 37 case 53 => 29 case 54 => 21 case 55 => 13 case 56 => 5
    case 57 => 63 case 58 => 55 case 59 => 47 case 60 => 39 case 61 => 31 case 62 => 23 case 63 => 15 case _ => 7
  }

  /** Its inverse. */
  function IPInverse(n: nat): (m: nat)
    requires 1 <= n <= 64
    ensures 1 <= m <= 64
  {
    match n
    case 1 => 40 case 2 => 8 case 3 => 48 case 4 => 16 case 5 => 56 case 6 => 24 case 7 => 64 case 8 => 32
    case 9 => 39 case 10 => 7 case 11 => 47 case 12 => 15 case 13 => 55 case 14 => 23 case 15 => 63 case 16 => 31
    case 17 => 38 case 18 => 6 case 19 => 46 case 20 => 14 case 21 => 54 case 22 => 22 case 23 => 62 case 24 => 30
    case 25 => 37 case 26 => 5 case 27 => 45 case 28 => 13 case 29 => 53 case 30 => 21 case 31 => 61 case 32 => 29
    case 33 => 36 case 34 => 4 case 35 => 44 case 36 => 12 case 37 => 52 case 38 => 20 case 39 => 60 case 40 => 28
    case 41 => 35 case 42 => 3 case 43 => 43 case 44 => 11 case 45 => 51 case 46 => 19 case 47 => 59 case 48 => 27
    case 49 => 34 case 50 => 2 case 51 => 42 case 52 => 10 case 53 => 50 case 54 => 18 case 55 => 58 case 56 => 26
    case 57 => 33 case 58 => 1 case 59 => 41 case 60 => 9 case 61 => 49 case 62 => 17 case 63 => 57 case _ => 25
  }

  /** Bit selection. */
  function E(n: nat): (m: nat)
    requires 1 <= n <= 48
    ensures 1 <= m <= 32
  {
    match n
    case 1 => 32 case 2 => 1 case 3 => 2 case 4 => 3 case 5 => 4 case 6 => 5 case 7 => 4 case 8 => 5
    case 9 => 6 case 10 => 7 case 11 => 8 case 12 => 9 case 13 => 8 case 14 => 9 case 15 => 10 case 16 => 11
    case 17 => 12 case 18 => 13 case 19 => 12 case 20 => 13 case 21 => 14 case 22 => 15 case 23 => 16 case 24 => 17
    case 25 => 16 case 26 => 17 case 27 => 18 case 28 => 19 case 29 => 20 case 30 => 21 case 31 => 20 case 32 => 21
    case 33 => 22 case 34 => 23 case 35 => 24 case 36 => 25 case 37 => 24 case 38 => 25 case 39 => 26 case 40 => 27
    case 41 => 28 case 42 => 29 case 43 => 28 case 44 => 29 case 45 => 30 case 46 => 31 case 47 => 32 case _ => 1
  }

  /** Permutation of the selected output. */
  function P(n: nat): (m: nat)
    requires 1 <= n <= 32
    ensures 1 <= m <= 32
  {
    match n
    case 1 => 16 case 2 => 7 case 3 => 20 case 4 => 21 case 5 => 29 case 6 => 12 case 7 => 28 case 8 => 17
    case 9 => 1 case 10 => 15 case 11 => 23 case 12 => 26 case 13 => 5 case 14 => 18 case 15 => 31 case 16 => 10
    case 17 => 2 case 18 => 8 case 19 => 24 case 20 => 14 case 21 => 32 case 22 => 27 case 23 => 3 case 24 => 9
    case 25 => 19 case 26 => 13 case 27 => 30 case 28 => 6 case 29 => 22 case 30 => 11 case 31 => 4 case _ => 25
  }

  /** Permuted choice 1: the bits of C0, then of D0. */
  function PC1(n: nat): (m: nat)
    requires 1 <= n <= 56
    ensures 1 <= m <= 64
  {
    match n
    case 1 => 57 case 2 => 49 case 3 => 41 case 4 => 33 case 5 => 25 case 6 => 17 case 7 => 9 case 8 => 1
    case 9 => 58 case 10 => 50 case 11 => 42 case 12 => 34 case 13 => 26 case 14 => 18 case 15 => 10 case 16 => 2
    case 17 => 59 case 18 => 51 case 19 => 43 case 20 => 35 case 21 => 27 case 22 => 19 case 23 => 11 case 24 => 3
    case 25 => 60 case 26 => 52 case 27 => 44 case 28 => 36 case 29 => 63 case 30 => 55 case 31 => 47 case 32 => 39
    case 33 => 31 case 34 => 23 case 35 => 15 case 36 => 7 case 37 => 62 case 38 => 54 case 39 => 46 case 40 => 38
    case 41 => 30 case 42 => 22 case 43 => 14 case 44 => 6 case 45 => 61 case 46 => 53 case 47 => 45 case 48 => 37
    case 49 => 29 case 50 => 21 case 51 => 13 case 52 => 5 case 53 => 28 case 54 => 20 case 55 => 12 case _ => 4
  }

  /** Permuted choice 2, from the bits of Cn Dn. */
  function PC2(n: nat): (m: nat)
    requires 1 <= n <= 48
    ensures 1 <= m <= 56
  {
    match n
    case 1 => 14 case 2 => 17 case 3 => 11 case 4 => 24 case 5 => 1 case 6 => 5 case 7 => 3 case 8 => 28
    case 9 => 15 case 10 => 6 case 11 => 21 case 12 => 10 case 13 => 23 case 14 => 19 case 15 => 12 case 16 => 4
    case 17 => 26 case 18 => 8 case 19 => 16 case 20 => 7 case 21 => 27 case 22 => 20 case 23 => 13 case 24 => 2
    case 25 => 41 case 26 => 52 case 27 => 31 case 28 => 37 case 29 => 47 case 30 => 55 case 31 => 30 case 32 => 40
    case 33 => 51 case 34 => 45 case 35 => 33 case 36 => 48 case 37 => 44 case 38 => 49 case 39 => 39 case 40 => 56
    case 41 => 34 case 42 => 53 case 43 => 46 case 44 => 42 case 45 => 50 case 46 => 36 case 47 => 29 case _ => 32
  }

  /** The number of left shifts before the key of iteration n. */
  function LeftShifts(n: nat): (m: nat)
    requires 1 <= n <= 16
    ensures 1 <= m <= 2
  {
    match n
    case 1 => 1 case 2 => 1 case 9 => 1 case 16 => 1
    case _ => 2
  }

  // The selection functions: the first and the last bit give the row, the middle four the column.

  function S1(b1: bool, b6: bool, column: bv4): bv4 {
    if !b1 && !b6 then
      match column
      case 0 => 14 case 1 => 4 case 2 => 13 case 3 => 1 case 4 => 2 case 5 => 15 case 6 => 11 case 7 => 8
      case 8 => 3 case 9 => 10 case 10 => 6 case 11 => 12 case 12 => 5 case 13 => 9 case 14 => 0 case _ => 7
    else if !b1 then
      match column
      case 0 => 0 case 1 => 15 case 2 => 7 case 3 => 4 case 4 => 14 case 5 => 2 case 6 => 13 case 7 => 1
      case 8 => 10 case 9 => 6 case 10 => 12 case 11 => 11 case 12 => 9 case 13 => 5 case 14 => 3 case _ => 8
    else if !b6 then
      match column
      case 0 => 4 case 1 => 1 case 2 => 14 case 3 => 8 case 4 => 13 case 5 => 6 case 6 => 2 case 7 => 11
      case 8 => 15 case 9 => 12 case 10 => 9 case 11 => 7 case 12 => 3 case 13 => 10 case 14 => 5 case _ => 0
    else
      match column
      case 0 => 15 case 1 => 12 case 2 => 8 case 3 => 2 case 4 => 4 case 5 => 9 case 6 => 1 case 7 => 7
      case 8 => 5 case 9 => 11 case 10 => 3 case 11 => 14 case 12 => 10 case 13 => 0 case 14 => 6 case _ => 13
  }

  function S2(b1: bool, b6: bool, column: bv4): bv4 {
    if !b1 && !b6 then
      match column
      case 0 => 15 case 1 => 1 case 2 => 8 case 3 => 14 case 4 => 6 case 5 => 11 case 6 => 3 case 7 => 4
      case 8 => 9 case 9 => 7 case 10 => 2 case 11 => 13 case 12 => 12 case 13 => 0 case 14 => 5 case _ => 10
    else if !b1 then
      match column
      case 0 => 3 case 1 => 13 case 2 => 4 case 3 => 7 case 4 => 15 case 5 => 2 case 6 => 8 case 7 => 14
      case 8 => 12 case 9 => 0 case 10 => 1 case 11 => 10 case 12 => 6 case 13 => 9 case 14 => 11 case _ => 5
    else if !b6 then
      match column
      case 0 => 0 case 1 => 14 case 2 => 7 case 3 => 11 case 4 => 10 case 5 => 4 case 6 => 13 case 7 => 1
      case 8 => 5 case 9 => 8 case 10 => 12 case 11 => 6 case 12 => 9 case 13 => 3 case 14 => 2 case _ => 15
    else
      match column
      case 0 => 13 case 1 => 8 case 2 => 10 case 3 => 1 case 4 => 3 case 5 => 15 case 6 => 4 case 7 => 2
      case 8 => 11 case 9 => 6 case 10 => 7 case 11 => 12 case 12 => 0 case 13 => 5 case 14 => 14 case _ => 9
  }

  function S3(b1: bool, b6: bool, column: bv4): bv4 {
    if !b1 && !b6 then
      match column
      case 0 => 10 case 1 => 0 case 2 => 9 case 3 => 14 case 4 => 6 case 5 => 3 case 6 => 15 case 7 => 5
      case 8 => 1 case 9 => 13 case 10 => 12 case 11 => 7 case 12 => 11 case 13 => 4 case 14 => 2 case _ => 8
    else if !b1 then
      match column
      case 0 => 13 case 1 => 7 case 2 => 0 case 3 => 9 case 4 => 3 case 5 => 4 case 6 => 6 case 7 => 10
      case 8 => 2 case 9 => 8 case 10 => 5 case 11 => 14 case 12 => 12 case 13 => 11 case 14 => 15 case _ => 1
    else if !b6 then
      match column
      case 0 => 13 case 1 => 6 case 2 => 4 case 3 => 9 case 4 => 8 case 5 => 15 case 6 => 3 case 7 => 0
      case 8 => 11 case 9 => 1 case 10 => 2 case 11 => 12 case 12 => 5 case 13 => 10 case 14 => 14 case _ => 7
    else
      match column
      case 0 => 1 case 1 => 10 case 2 => 13 case 3 => 0 case 4 => 6 case 5 => 9 case 6 => 8 case 7 => 7
      case 8 => 4 case 9 => 15 case 10 => 14 case 11 => 3 case 12 => 11 case 13 => 5 case 14 => 2 case _ => 12
  }

  function S4(b1: bool, b6: bool, column: bv4): bv4 {
    if !b1 && !b6 then
      match column
      case 0 => 7 case 1 => 13 case 2 => 14 case 3 => 3 case 4 => 0 case 5 => 6 case 6 => 9 case 7 => 10
      case 8 => 1 case 9 => 2 case 10 => 8 case 11 => 5 case 12 => 11 case 13 => 12 case 14 => 4 case _ => 15
    else if !b1 then
      match column
      case 0 => 13 case 1 => 8 case 2 => 11 case 3 => 5 case 4 => 6 case 5 => 15 case 6 => 0 case 7 => 3
      case 8 => 4 case 9 => 7 case 10 => 2 case 11 => 12 case 12 => 1 case 13 => 10 case 14 => 14 case _ => 9
    else if !b6 then
      match column
      case 0 => 10 case 1 => 6 case 2 => 9 case 3 => 0 case 4 => 12 case 5 => 11 case 6 => 7 case 7 => 13
      case 8 => 15 case 9 => 1 case 10 => 3 case 11 => 14 case 12 => 5 case 13 => 2 case 14 => 8 case _ => 4
    else
      match column
      case 0 => 3 case 1 => 15 case 2 => 0 case 3 => 6 case 4 => 10 case 5 => 1 case 6 => 13 case 7 => 8
      case 8 => 9 case 9 => 4 case 10 => 5 case 11 => 11 case 12 => 12 case 13 => 7 case 14 => 2 case _ => 14
  }

  function S5(b1: bool, b6: bool, column: bv4): bv4 {
    if !b1 && !b6 then
      match column
      case 0 => 2 case 1 => 12 case 2 => 4 case 3 => 1 case 4 => 7 case 5 => 10 case 6 => 11 case 7 => 6
      case 8 => 8 case 9 => 5 case 10 => 3 case 11 => 15 case 12 => 13 case 13 => 0 case 14 => 14 case _ => 9
    else if !b1 then
      match column
      case 0 => 14 case 1 => 11 case 2 => 2 case 3 => 12 case 4 => 4 case 5 => 7 case 6 => 13 case 7 => 1
      case 8 => 5 case 9 => 0 case 10 => 15 case 11 => 10 case 12 => 3 case 13 => 9 case 14 => 8 case _ => 6
    else if !b6 then
      match column
      case 0 => 4 case 1 => 2 case 2 => 1 case 3 => 11 case 4 => 10 case 5 => 13 case 6 => 7 case 7 => 8
      case 8 => 15 case 9 => 9 case 10 => 12 case 11 => 5 case 12 => 6 case 13 => 3 case 14 => 0 case _ => 14
    else
      match column
      case 0 => 11 case 1 => 8 case 2 => 12 case 3 => 7 case 4 => 1 case 5 => 14 case 6 => 2 case 7 => 13
      case 8 => 6 case 9 => 15 case 10 => 0 case 11 => 9 case 12 => 10 case 13 => 4 case 14 => 5 case _ => 3
  }

  function S6(b1: bool, b6: bool, column: bv4): bv4 {
    if !b1 && !b6 then
      match column
      case 0 => 12 case 1 => 1 case 2 => 10 case 3 => 15 case 4 => 9 case 5 => 2 case 6 => 6 case 7 => 8
      case 8 => 0 case 9 => 13 case 10 => 3 case 11 => 4 case 12 => 14 case 13 => 7 case 14 => 5 case _ => 11
    else if !b1 then
      match column
      case 0 => 10 case 1 => 15 case 2 => 4 case 3 => 2 case 4 => 7 case 5 => 12 case 6 => 9 case 7 => 5
      case 8 => 6 case 9 => 1 case 10 => 13 case 11 => 14 case 12 => 0 case 13 => 11 case 14 => 3 case _ => 8
    else if !b6 then
      match column
      case 0 => 9 case 1 => 14 case 2 => 15 case 3 => 5 case 4 => 2 case 5 => 8 case 6 => 12 case 7 => 3
      case 8 => 7 case 9 => 0 case 10 => 4 case 11 => 10 case 12 => 1 case 13 => 13 case 14 => 11 case _ => 6
    else
      match column
      case 0 => 4 case 1 => 3 case 2 => 2 case 3 => 12 case 4 => 9 case 5 => 5 case 6 => 15 case 7 => 10
      case 8 => 11 case 9 => 14 case 10 => 1 case 11 => 7 case 12 => 6 case 13 => 0 case 14 => 8 case _ => 13
  }

  function S7(b1: bool, b6: bool, column: bv4): bv4 {
    if !b1 && !b6 then
      match column
      case 0 => 4 case 1 => 11 case 2 => 2 case 3 => 14 case 4 => 15 case 5 => 0 case 6 => 8 case 7 => 13
      case 8 => 3 case 9 => 12 case 10 => 9 case 11 => 7 case 12 => 5 case 13 => 10 case 14 => 6 case _ => 1
    else if !b1 then
      match column
      case 0 => 13 case 1 => 0 case 2 => 11 case 3 => 7 case 4 => 4 case 5 => 9 case 6 => 1 case 7 => 10
      case 8 => 14 case 9 => 3 case 10 => 5 case 11 => 12 case 12 => 2 case 13 => 15 case 14 => 8 case _ => 6
    else if !b6 then
      match column
      case 0 => 1 case 1 => 4 case 2 => 11 case 3 => 13 case 4 => 12 case 5 => 3 case 6 => 7 case 7 => 14
      case 8 => 10 case 9 => 15 case 10 => 6 case 11 => 8 case 12 => 0 case 13 => 5 case 14 => 9 case _ => 2
    else
      match column
      case 0 => 6 case 1 => 11 case 2 => 13 case 3 => 8 case 4 => 1 case 5 => 4 case 6 => 10 case 7 => 7
      case 8 => 9 case 9 => 5 case 10 => 0 case 11 => 15 case 12 => 14 case 13 => 2 case 14 => 3 case _ => 12
  }

  function S8(b1: bool, b6: bool, column: bv4): bv4 {
    if !b1 && !b6 then
      match column
      case 0 => 13 case 1 => 2 case 2 => 8 case 3 => 4 case 4 => 6 case 5 => 15 case 6 => 11 case 7 => 1
      case 8 => 10 case 9 => 9 case 10 => 3 case 11 => 14 case 12 => 5 case 13 => 0 case 14 => 12 case _ => 7
    else if !b1 then
      match column
      case 0 => 1 case 1 => 15 case 2 => 13 case 3 => 8 case 4 => 10 case 5 => 3 case 6 => 7 case 7 => 4
      case 8 => 12 case 9 => 5 case 10 => 6 case 11 => 11 case 12 => 0 case 13 => 14 case 14 => 9 case _ => 2
    else if !b6 then
      match column
      case 0 => 7 case 1 => 11 case 2 => 4 case 3 => 1 case 4 => 9 case 5 => 12 case 6 => 14 case 7 => 2
      case 8 => 0 case 9 => 6 case 10 => 10 case 11 => 13 case 12 => 15 case 13 => 3 case 14 => 5 case _ => 8
    else
      match column
      case 0 => 2 case 1 => 1 case 2 => 14 case 3 => 7 case 4 => 4 case 5 => 10 case 6 => 8 case 7 => 13
      case 8 => 15 case 9 => 12 case 10 => 9 case 11 => 0 case 12 => 3 case 13 => 5 case 14 => 6 case _ => 11
  }

  function S(j: nat, b1: bool, b6: bool, column: bv4): bv4
    requires 1 <= j <= 8
  {
    match j
    case 1 => S1(b1, b6, column) case 2 => S2(b1, b6, column) case 3 => S3(b1, b6, column) case 4 => S4(b1, b6, column)
    case 5 => S5(b1, b6, column) case 6 => S6(b1, b6, column) case 7 => S7(b1, b6, column) case _ => S8(b1, b6, column)
  }

  function Column(b2: bool, b3: bool, b4: bool, b5: bool): bv4 {
    (if b2 then 8 else 0) | (if b3 then 4 else 0) | (if b4 then 2 else 0) | (if b5 then 1 else 0)
  }

  /** Bit k of four, the leftmost first. */
  function BitOf4(v: bv4, k: nat): bool
    requires 1 <= k <= 4
  {
    match k
    case 1 => v & 8 != 0 case 2 => v & 4 != 0 case 3 => v & 2 != 0 case _ => v & 1 != 0
  }

  // ---------- The function f ----------

  function Expanded(r: Bits): (x: Bits)
    requires |r| == 32
    ensures |x| == 48
  {
    seq(48, i requires 0 <= i < 48 => r[E(i + 1) - 1])
  }

  /** Sj(Bj), where B1 to B8 are the blocks of six bits of x. */
  function Selection(x: Bits, j: nat): bv4
    requires |x| == 48 && 1 <= j <= 8
  {
    var o := 6 * (j - 1);
    S(j, x[o], x[o + 5], Column(x[o + 1], x[o + 2], x[o + 3], x[o + 4]))
  }

  /** Bit n of P applied to the 32 selected bits. */
  function FBit(x: Bits, n: nat): bool
    requires |x| == 48 && 1 <= n <= 32
  {
    var o := P(n) - 1;
    BitOf4(Selection(x, o / 4 + 1), o % 4 + 1)
  }

  /** P of the eight selections. */
  function Selected(x: Bits): (y: Bits)
    requires |x| == 48
    ensures |y| == 32
  {
    seq(32, i requires 0 <= i < 32 => FBit(x, i + 1))
  }

  function F(r: Bits, k: Bits): (y: Bits)
    requires |r| == 32 && |k| == 48
    ensures |y| == 32
  {
    Selected(Xored(Expanded(r), k))
  }

  // ---------- The key schedule KS ----------

  function ShiftedLeft(c: Bits, m: nat): (r: Bits)
    requires |c| == 28 && m <= 28
    ensures |r| == 28
  {
    c[m..] + c[..m]
  }

  /** C and D after n iterations of the key schedule. */
  function C(key: Bits, n: nat): (c: Bits)
    requires |key| == 64 && n <= 16
    ensures |c| == 28
  {
    if n == 0 then seq(28, i requires 0 <= i < 28 => key[PC1(i + 1) - 1])
    else ShiftedLeft(C(key, n - 1), LeftShifts(n))
  }

  function D(key: Bits, n: nat): (d: Bits)
    requires |key| == 64 && n <= 16
    ensures |d| == 28
  {
    if n == 0 then seq(28, i requires 0 <= i < 28 => key[PC1(i + 29) - 1])
    else ShiftedLeft(D(key, n - 1), LeftShifts(n))
  }

  function Chosen2(cd: Bits): (k: Bits)
    requires |cd| == 56
    ensures |k| == 48
  {
    seq(48, i requires 0 <= i < 48 => cd[PC2(i + 1) - 1])
  }

  /** Kn. */
  function K(key: Bits, n: nat): (k: Bits)
    requires |key| == 64 && 1 <= n <= 16
    ensures |k| == 48
  {
    Chosen2(C(key, n) + D(key, n))
  }

  // ---------- Enciphering and deciphering ----------

  function InitiallyPermuted(b: Bits): (r: Bits)
    requires |b| == 64
    ensures |r| == 64
  {
    seq(64, i requires 0 <= i < 64 => b[IP(i + 1) - 1])
  }

  function InverselyPermuted(b: Bits): (r: Bits)
    requires |b| == 64
    ensures |r| == 64
  {
    seq(64, i requires 0 <= i < 64 => b[IPInverse(i + 1) - 1])
  }

  datatype LR = LR(l: Bits, r: Bits)

  /** Ln and Rn; deciphering takes the keys in the opposite order. */
  function Iterations(key: Bits, encipher: bool, n: nat, input: Bits): (s: LR)
    requires |key| == 64 && n <= 16 && |input| == 64
    ensures |s.l| == 32 && |s.r| == 32
  {
    if n == 0 then
      var b := InitiallyPermuted(input);
      LR(b[..32], b[32..])
    else
      var s := Iterations(key, encipher, n - 1, input);
      LR(s.r, Xored(s.l, F(s.r, K(key, if encipher then n else 17 - n))))
  }

  /** The preoutput is R16 L16. */
  function Output(key: Bits, encipher: bool, input: Bits): (output: Bits)
    requires |key| == 64 && |input| == 64
    ensures |output| == 64
  {
    var s := Iterations(key, encipher, 16, input);
    InverselyPermuted(s.r + s.l)
  }
}
