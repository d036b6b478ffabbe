/** The table of the largest number of digits is good for every radix. */
module MaxDigits {
  import opened Limbs
  import opened DoubleRounding
  import opened FreeFormat

  const DTOA_MAX_DIGITS: seq<nat> := [
    54, 35, 28, 24, 22, 20, 19, 18, 17, 17, 16, 16, 15, 15, 15, 14, 14, 14, 14, 14, 13, 13, 13, 13, 13, 13, 13,
    12, 12, 12, 12, 12, 12, 12, 12]

  /** What EnoughDigits asks for, from two smaller powers. */
  lemma FromHalves(b: nat, i: nat, j: nat, x: nat, y: nat)
    requires 2 <= b <= 36 && x == Pow(b, i) && y == Pow(b, j)
    requires x * y >= TWO53 && 2 * (b * (x * y)) < BASE * BASE
    ensures EnoughDigits(b, i + j + 1)
  {
    hide Pow;
    PowAdd(b, i, j);
    PowSucc(b, i + j);
  }

  lemma Digits5(b: nat)
    requires 5 <= b <= 8
    ensures EnoughDigits(b, DTOA_MAX_DIGITS[b - 2])
  {
    hide Pow, EnoughDigits;
    if b == 5 { PowChain(5); FromHalves(5, 11, 12, 48828125, 244140625); }
    if b == 6 { PowChain(6); FromHalves(6, 10, 11, 60466176, 362797056); }
    if b == 7 { PowChain(7); FromHalves(7, 9, 10, 40353607, 282475249); }
    if b == 8 { PowChain(8); FromHalves(8, 9, 9, 134217728, 134217728); }
  }

  lemma Digits9(b: nat)
    requires 9 <= b <= 12
    ensures EnoughDigits(b, DTOA_MAX_DIGITS[b - 2])
  {
    hide Pow, EnoughDigits;
    if b == 9 { PowChain(9); FromHalves(9, 8, 9, 43046721, 387420489); }
    if b == 10 { PowChain(10); FromHalves(10, 8, 8, 100000000, 100000000); }
    if b == 11 { PowChain(11); FromHalves(11, 8, 8, 214358881, 214358881); }
    if b == 12 { PowChain(12); FromHalves(12, 7, 8, 35831808, 429981696); }
  }

  lemma Digits13(b: nat)
    requires 13 <= b <= 16
    ensures EnoughDigits(b, DTOA_MAX_DIGITS[b - 2])
  {
    hide Pow, EnoughDigits;
    if b == 13 { PowChain(13); FromHalves(13, 7, 8, 62748517, 815730721); }
    if b == 14 { PowChain(14); FromHalves(14, 7, 7, 105413504, 105413504); }
    if b == 15 { PowChain(15); FromHalves(15, 7, 7, 170859375, 170859375); }
    if b == 16 { PowChain(16); FromHalves(16, 7, 7, 268435456, 268435456); }
  }

  lemma Digits17(b: nat)
    requires 17 <= b <= 20
    ensures EnoughDigits(b, DTOA_MAX_DIGITS[b - 2])
  {
    hide Pow, EnoughDigits;
    if b == 17 { PowChain(17); FromHalves(17, 6, 7, 24137569, 410338673); }
    if b == 18 { PowChain(18); FromHalves(18, 6, 7, 34012224, 612220032); }
    if b == 19 { PowChain(19); FromHalves(19, 6, 7, 47045881, 893871739); }
    if b == 20 { PowChain(20); FromHalves(20, 6, 7, 64000000, 1280000000); }
  }

  lemma Digits21(b: nat)
    requires 21 <= b <= 24
    ensures EnoughDigits(b, DTOA_MAX_DIGITS[b - 2])
  {
    hide Pow, EnoughDigits;
    if b == 21 { PowChain(21); FromHalves(21, 6, 7, 85766121, 1801088541); }
    if b == 22 { PowChain(22); FromHalves(22, 6, 6, 113379904, 113379904); }
    if b == 23 { PowChain(23); FromHalves(23, 6, 6, 148035889, 148035889); }
    if b == 24 { PowChain(24); FromHalves(24, 6, 6, 191102976, 191102976); }
  }

  lemma Digits25(b: nat)
    requires 25 <= b <= 28
    ensures EnoughDigits(b, DTOA_MAX_DIGITS[b - 2])
  {
    hide Pow, EnoughDigits;
    if b == 25 { PowChain(25); FromHalves(25, 6, 6, 244140625, 244140625); }
    if b == 26 { PowChain(26); FromHalves(26, 6, 6, 308915776, 308915776); }
    if b == 27 { PowChain(27); FromHalves(27, 6, 6, 387420489, 387420489); }
    if b == 28 { PowChain(28); FromHalves(28, 6, 6, 481890304, 481890304); }
  }

  lemma Digits29(b: nat)
    requires 29 <= b <= 32
    ensures EnoughDigits(b, DTOA_MAX_DIGITS[b - 2])
  {
    hide Pow, EnoughDigits;
    if b == 29 { PowChain(29); FromHalves(29, 5, 6, 20511149, 594823321); }
    if b == 30 { PowChain(30); FromHalves(30, 5, 6, 24300000, 729000000); }
    if b == 31 { PowChain(31); FromHalves(31, 5, 6, 28629151, 887503681); }
    if b == 32 { PowChain(32); FromHalves(32, 5, 6, 33554432, 1073741824); }
  }

  lemma Digits33(b: nat)
    requires 33 <= b <= 36
    ensures EnoughDigits(b, DTOA_MAX_DIGITS[b - 2])
  {
    hide Pow, EnoughDigits;
    if b == 33 { PowChain(33); FromHalves(33, 5, 6, 39135393, 1291467969); }
    if b == 34 { PowChain(34); FromHalves(34, 5, 6, 45435424, 1544804416); }
    if b == 35 { PowChain(35); FromHalves(35, 5, 6, 52521875, 1838265625); }
    if b == 36 { PowChain(36); FromHalves(36, 5, 6, 60466176, 2176782336); }
  }

  lemma DigitsSmall(b: nat)
    requires 2 <= b <= 4
    ensures EnoughDigits(b, DTOA_MAX_DIGITS[b - 2])
  {
    hide Pow, EnoughDigits;
    if b == 2 { PowChain(2); PowAdd(2, 13, 13); PowAdd(2, 13, 12); PowAdd(2, 26, 1); FromHalves(2, 26, 27, 67108864,
      134217728); }
    if b == 3 { PowChain(3); PowAdd(3, 10, 7); FromHalves(3, 17, 17, 129140163, 129140163); }
    if b == 4 { PowChain(4); PowAdd(4, 13, 1); FromHalves(4, 13, 14, 67108864, 268435456); }
  }

  /** Every entry leaves enough digits, and digits that fit 64 bits. */
  lemma MaxDigitsTable(radix: nat)
    requires 2 <= radix <= 36
    ensures EnoughDigits(radix, DTOA_MAX_DIGITS[radix - 2])
  {
    hide Pow, EnoughDigits;
    if radix <= 4 { DigitsSmall(radix); }
    else if radix <= 8 { Digits5(radix); }
    else if radix <= 12 { Digits9(radix); }
    else if radix <= 16 { Digits13(radix); }
    else if radix <= 20 { Digits17(radix); }
    else if radix <= 24 { Digits21(radix); }
    else if radix <= 28 { Digits25(radix); }
    else if radix <= 32 { Digits29(radix); }
    else if radix <= 36 { Digits33(radix); }
  }
}
