/** The tables of the exponent limits are right for every radix. */
module ExponentTables {
  import opened Limbs
  import opened RealRounding
  import opened DoubleRounding
  import opened Atod

  const MAX_EXPONENT: seq<int> := [
    1024, 647, 512, 442, 397, 365, 342, 324, 309, 297, 286, 277, 269, 263, 256, 251, 246, 242, 237, 234, 230, 227,
    224, 221, 218, 216, 214, 211, 209, 207, 205, 203, 202, 200, 199]

  const UNDERFLOW_EXPONENT: seq<int> := [
    -1075, -679, -538, -463, -416, -383, -359, -340, -324, -311, -300, -291, -283, -276, -269, -263, -258, -254,
    -249, -245, -242, -238, -235, -232, -229, -227, -224, -222, -220, -217, -215, -214, -212, -210, -208]

  /** The power is between lo and hi in units of w limbs. */
  ghost predicate Within(b: nat, n: nat, lo: nat, hi: nat, w: nat) {
    lo * Pow(BASE, w) <= Pow(b, n) <= hi * Pow(BASE, w)
  }

  function Unit(t: nat): nat {
    if t == 0 then 1 else if t == 1 then BASE else if t == 2 then BASE * BASE else BASE * BASE * BASE
  }

  lemma UnitIs(t: nat)
    requires t <= 3
    ensures Unit(t) == Pow(BASE, t)
  {
    PowSucc(BASE, 0);
    PowSucc(BASE, 1);
    PowSucc(BASE, 2);
  }

  lemma Exact(b: nat, n: nat, v: nat)
    requires Pow(b, n) == v
    ensures Within(b, n, v, v, 0)
  {
    hide Pow;
    PowZero(BASE);
  }

  /** The product of two powers, with the bounds cut by t limbs. */
  lemma Product2(b: nat, n: nat, lo: nat, hi: nat, w: nat, n2: nat, lo2: nat, hi2: nat, w2: nat, lo3: nat, hi3: nat,
      t: nat)
    requires Within(b, n, lo, hi, w) && Within(b, n2, lo2, hi2, w2) && t <= 3
    requires lo3 * Unit(t) <= lo * lo2 && hi * hi2 <= hi3 * Unit(t)
    ensures Within(b, n + n2, lo3, hi3, w + w2 + t)
  {
    UnitIs(t);
    hide Pow, Unit;
    PowAdd(b, n, n2);
    PowAdd(BASE, w, w2);
    PowAdd(BASE, w + w2, t);
    Regroup(lo, lo2, lo3, Pow(BASE, w), Pow(BASE, w2), Unit(t));
    Regroup(hi, hi2, hi3, Pow(BASE, w), Pow(BASE, w2), Unit(t));
    MulBoth(lo * Pow(BASE, w), Pow(b, n), lo2 * Pow(BASE, w2), Pow(b, n2));
    MulBoth(Pow(b, n), hi * Pow(BASE, w), Pow(b, n2), hi2 * Pow(BASE, w2));
    MulMono(lo3 * Unit(t), lo * lo2, Pow(BASE, w) * Pow(BASE, w2));
    MulMono(hi * hi2, hi3 * Unit(t), Pow(BASE, w) * Pow(BASE, w2));
  }

  lemma Regroup(x: nat, y: nat, z: nat, p: nat, q: nat, u: nat)
    ensures (x * y) * (p * q) == (x * p) * (y * q) && (z * u) * (p * q) == z * ((p * q) * u)
  {
    MulSwap(x, y, p, q);
    MulAssoc(z, u, p * q);
    assert u * (p * q) == (p * q) * u;
  }

  lemma MulBoth(x: nat, x1: nat, y: nat, y1: nat)
    requires x <= x1 && y <= y1
    ensures x * y <= x1 * y1
  {
    MulMono(x, x1, y);
    MulMono(y, y1, x1);
    assert x1 * y == y * x1 && x1 * y1 == y1 * x1;
  }

  /** One rung: the power squared. */
  lemma Square(b: nat, n: nat, lo: nat, hi: nat, w: nat, lo1: nat, hi1: nat, t: nat)
    requires Within(b, n, lo, hi, w) && t <= 3
    requires lo1 * Unit(t) <= lo * lo && hi * hi <= hi1 * Unit(t)
    ensures Within(b, 2 * n, lo1, hi1, 2 * w + t)
  {
    hide Within, Unit;
    Product2(b, n, lo, hi, w, n, lo, hi, w, lo1, hi1, t);
  }

  /** One rung: the power squared and times b. */
  lemma SquareTimes(b: nat, n: nat, lo: nat, hi: nat, w: nat, lo1: nat, hi1: nat, t: nat)
    requires Within(b, n, lo, hi, w) && t <= 3
    requires lo1 * Unit(t) <= (lo * lo) * b && (hi * hi) * b <= hi1 * Unit(t)
    ensures Within(b, 2 * n + 1, lo1, hi1, 2 * w + t)
  {
    PowSucc(b, 0);
    Exact(b, 1, b);
    hide Within;
    Product2(b, n, lo, hi, w, n, lo, hi, w, lo * lo, hi * hi, 0);
    Product2(b, 2 * n, lo * lo, hi * hi, 2 * w, 1, b, b, 0, lo1, hi1, t);
  }

  /** r further factors. */
  lemma Times1(b: nat, n: nat, lo: nat, hi: nat, w: nat, r: nat, v: nat, lo1: nat, hi1: nat, t: nat)
    requires Within(b, n, lo, hi, w) && Pow(b, r) == v && t <= 3
    requires lo1 * Unit(t) <= lo * v && hi * v <= hi1 * Unit(t)
    ensures Within(b, n + r, lo1, hi1, w + t)
  {
    Exact(b, r, v);
    hide Within, Pow;
    Product2(b, n, lo, hi, w, r, v, v, 0, lo1, hi1, t);
  }

  /** b^max is beyond the doubles; b^-min rounds to zero, and the scaling can still represent it. */
  ghost predicate Limits(b: nat, min: nat, max: nat) {
    Pow(b, max) >= Pow(2, 1024) && Pow(2, 1075) <= Pow(b, min) <= Pow(2, 1085)
  }

  lemma LimitsHold(b: nat, min: nat, max: nat, lo: nat, hi: nat, lo1: nat, hi1: nat)
    requires Within(b, max, lo, hi, 31) && lo >= BASE
    requires Within(b, min, lo1, hi1, 32) && 0x8_0000_0000_0000 <= lo1 && hi1 <= 0x2000_0000_0000_0000
    ensures Limits(b, min, max)
  {
    TwoPowers();
    hide Pow;
    PowSucc(BASE, 31);
    PowLimbs(32);
    PowAdd(2, 1024, 51);
    PowAdd(2, 1024, 61);
    MulMono(BASE, lo, Pow(BASE, 31));
    MulMono(Pow(2, 51), lo1, Pow(BASE, 32));
    MulMono(hi1, Pow(2, 61), Pow(BASE, 32));
  }

  lemma TwoPowers()
    ensures Pow(2, 51) == 0x8_0000_0000_0000 && Pow(2, 61) == 0x2000_0000_0000_0000
  {
    hide Pow;
    PowChain(2);
    PowLimb();
    PowAdd(2, 32, 13);
    PowAdd(2, 45, 6);
    PowAdd(2, 51, 10);
  }

  lemma BinaryLimits(b: nat, s: nat, min: nat, max: nat)
    requires b == Pow(2, s) && s * max >= 1024 && 1075 <= s * min <= 1085
    ensures Limits(b, min, max)
  {
    hide Pow;
    PowMul(2, s, max);
    PowMul(2, s, min);
    PowMono(2, 1024, s * max);
    PowMono(2, 1075, s * min);
    PowMono(2, s * min, 1085);
  }

  lemma Limits2()
    ensures Limits(2, 1075, 1024) && Limits(4, 538, 512) && Limits(8, 359, 342) && Limits(16, 269, 256)
      && Limits(32, 215, 205)
  {
    hide Pow, Limits;
    PowChain(2);
    BinaryLimits(2, 1, 1075, 1024);
    BinaryLimits(4, 2, 538, 512);
    BinaryLimits(8, 3, 359, 342);
    BinaryLimits(16, 4, 269, 256);
    BinaryLimits(32, 5, 215, 205);
  }

  lemma LimitsFrom3()
    ensures Limits(3, 679, 647)
    ensures Limits(5, 463, 442)
  {
    hide Pow, Within, Limits;
    PowChain(3);
    Exact(3, 10, 59049);
    Square(3, 10, 59049, 59049, 0, 3486784401, 3486784401, 0);
    Square(3, 20, 3486784401, 3486784401, 0, 12157665459056928801, 12157665459056928801, 0);
    Square(3, 40, 12157665459056928801, 12157665459056928801, 0, 8012732698178659004, 8012732698178659005, 2);
    SquareTimes(3, 80, 8012732698178659004, 8012732698178659005, 2, 10441498787414525015, 10441498787414525019, 2);
    SquareTimes(3, 161, 10441498787414525015, 10441498787414525019, 6, 17730754515583401796, 17730754515583401811, 2);
    SquareTimes(3, 323, 17730754515583401796, 17730754515583401811, 14, 11904087349, 11904087350, 3);
    Times1(3, 647, 11904087349, 11904087350, 31, 13, 1594323, 18978960254519727, 18978960256114050, 0);
    Times1(3, 660, 18978960254519727, 18978960256114050, 31, 13, 1594323, 7045127649294, 7045127649887, 1);
    Times1(3, 673, 7045127649294, 7045127649887, 32, 6, 729, 5135898056335326, 5135898056767623, 0);
    LimitsHold(3, 679, 647, 11904087349, 11904087350, 5135898056335326, 5135898056767623);
    PowChain(5);
    Exact(5, 13, 1220703125);
    SquareTimes(5, 13, 1220703125, 1220703125, 0, 7450580596923828125, 7450580596923828125, 0);
    SquareTimes(5, 27, 7450580596923828125, 7450580596923828125, 0, 15046327690525280101, 15046327690525280102, 2);
    Square(5, 55, 15046327690525280101, 15046327690525280102, 2, 12272733663244316381, 12272733663244316383, 2);
    SquareTimes(5, 110, 12272733663244316381, 12272733663244316383, 6, 9505457831, 9505457832, 3);
    Square(5, 221, 9505457831, 9505457832, 15, 21037116781, 21037116786, 1);
    Times1(5, 442, 21037116781, 21037116786, 31, 13, 1220703125, 5979108204, 5979108206, 1);
    Times1(5, 455, 5979108204, 5979108206, 32, 8, 390625, 2335589142187500, 2335589142968750, 0);
    LimitsHold(5, 463, 442, 21037116781, 21037116786, 2335589142187500, 2335589142968750);
  }

  lemma LimitsFrom6()
    ensures Limits(6, 416, 397)
    ensures Limits(7, 383, 365)
  {
    hide Pow, Within, Limits;
    PowChain(6);
    Exact(6, 12, 2176782336);
    Square(6, 12, 2176782336, 2176782336, 0, 4738381338321616896, 4738381338321616896, 0);
    SquareTimes(6, 24, 4738381338321616896, 4738381338321616896, 0, 7302835975055466601, 7302835975055466602, 2);
    SquareTimes(6, 49, 7302835975055466601, 7302835975055466602, 2, 17346610241502516794, 17346610241502516800, 2);
    Square(6, 99, 17346610241502516794, 17346610241502516800, 6, 16312086602830473204, 16312086602830473216, 2);
    SquareTimes(6, 198, 16312086602830473204, 16312086602830473216, 14, 20150726274, 20150726275, 3);
    Times1(6, 397, 20150726274, 20150726275, 31, 13, 13060694016, 61276943903, 61276943907, 1);
    Times1(6, 410, 61276943903, 61276943907, 32, 6, 46656, 2858937094738368, 2858937094924992, 0);
    LimitsHold(6, 416, 397, 20150726274, 20150726275, 2858937094738368, 2858937094924992);
    PowChain(7);
    Exact(7, 11, 1977326743);
    Square(7, 11, 1977326743, 1977326743, 0, 3909821048582988049, 3909821048582988049, 0);
    SquareTimes(7, 22, 3909821048582988049, 3909821048582988049, 0, 5800855912350686119, 5800855912350686120, 2);
    SquareTimes(7, 45, 5800855912350686119, 5800855912350686120, 2, 12769164263881365993, 12769164263881365999, 2);
    Square(7, 91, 12769164263881365993, 12769164263881365999, 6, 8839042562007858052, 8839042562007858062, 2);
    SquareTimes(7, 182, 8839042562007858052, 8839042562007858062, 14, 6902857475, 6902857476, 3);
    Times1(7, 365, 6902857475, 6902857476, 31, 13, 96889010407, 155719702535, 155719702559, 1);
    Times1(7, 378, 155719702535, 155719702559, 32, 5, 16807, 2617181040505745, 2617181040909113, 0);
    LimitsHold(7, 383, 365, 6902857475, 6902857476, 2617181040505745, 2617181040909113);
  }

  lemma LimitsFrom9()
    ensures Limits(9, 340, 324)
    ensures Limits(10, 324, 309)
  {
    hide Pow, Within, Limits;
    PowChain(9);
    Exact(9, 10, 3486784401);
    Square(9, 10, 3486784401, 3486784401, 0, 12157665459056928801, 12157665459056928801, 0);
    Square(9, 20, 12157665459056928801, 12157665459056928801, 0, 8012732698178659004, 8012732698178659005, 2);
    SquareTimes(9, 40, 8012732698178659004, 8012732698178659005, 2, 7293302650, 7293302651, 3);
    Square(9, 81, 7293302650, 7293302651, 7, 12384788958, 12384788962, 1);
    Square(9, 162, 12384788958, 12384788962, 15, 35712262041, 35712262065, 1);
    Times1(9, 324, 35712262041, 35712262065, 31, 13, 2541865828329, 21135382944333, 21135382958538, 1);
    Times1(9, 337, 21135382944333, 21135382958538, 32, 3, 729, 15407694166418757, 15407694176774202, 0);
    LimitsHold(9, 340, 324, 35712262041, 35712262065, 15407694166418757, 15407694176774202);
    PowChain(10);
    Exact(10, 9, 1000000000);
    SquareTimes(10, 9, 1000000000, 1000000000, 0, 10000000000000000000, 10000000000000000000, 0);
    Square(10, 19, 10000000000000000000, 10000000000000000000, 0, 5421010862427522170, 5421010862427522171, 2);
    SquareTimes(10, 38, 5421010862427522170, 5421010862427522171, 2, 15930919111324522770, 15930919111324522776, 2);
    Square(10, 77, 15930919111324522770, 15930919111324522776, 6, 13758210268297397763, 13758210268297397774, 2);
    SquareTimes(10, 154, 13758210268297397763, 13758210268297397774, 14, 23891548633, 23891548634, 3);
    Times1(10, 309, 23891548633, 23891548634, 31, 13, 10000000000000, 55626846461091, 55626846463420, 1);
    Times1(10, 322, 55626846461091, 55626846463420, 32, 2, 100, 5562684646109100, 5562684646342000, 0);
    LimitsHold(10, 324, 309, 23891548633, 23891548634, 5562684646109100, 5562684646342000);
  }

  lemma LimitsFrom11()
    ensures Limits(11, 311, 297)
    ensures Limits(12, 300, 286)
  {
    hide Pow, Within, Limits;
    PowChain(11);
    Exact(11, 9, 2357947691);
    Square(11, 9, 2357947691, 2357947691, 0, 5559917313492231481, 5559917313492231481, 0);
    SquareTimes(11, 18, 5559917313492231481, 5559917313492231481, 0, 18433577465098809272, 18433577465098809273, 2);
    Square(11, 37, 18433577465098809272, 18433577465098809273, 2, 18420420254329854929, 18420420254329854932, 2);
    Square(11, 74, 18420420254329854929, 18420420254329854932, 6, 18394133999490760422, 18394133999490760429, 2);
    SquareTimes(11, 148, 18394133999490760422, 18394133999490760429, 14, 46975541315, 46975541316, 3);
    Times1(11, 297, 46975541315, 46975541316, 31, 13, 34522712143931, 377586831018115, 377586831026154, 1);
    Times1(11, 310, 377586831018115, 377586831026154, 32, 1, 11, 4153455141199265, 4153455141287694, 0);
    LimitsHold(11, 311, 297, 46975541315, 46975541316, 4153455141199265, 4153455141287694);
    PowChain(12);
    Exact(12, 8, 429981696);
    SquareTimes(12, 8, 429981696, 429981696, 0, 2218611106740436992, 2218611106740436992, 0);
    SquareTimes(12, 17, 2218611106740436992, 2218611106740436992, 0, 3202018886335981248, 3202018886335981248, 2);
    SquareTimes(12, 35, 3202018886335981248, 3202018886335981248, 2, 6669746102065698781, 6669746102065698782, 2);
    SquareTimes(12, 71, 6669746102065698781, 6669746102065698782, 6, 6737833364, 6737833365, 3);
    Square(12, 143, 6737833364, 6737833365, 15, 10570138329, 10570138334, 1);
    Times1(12, 286, 10570138329, 10570138334, 31, 13, 106993205379072, 263315853923535, 263315854048092, 1);
    Times1(12, 299, 263315853923535, 263315854048092, 32, 1, 12, 3159790247082420, 3159790248577104, 0);
    LimitsHold(12, 300, 286, 10570138329, 10570138334, 3159790247082420, 3159790248577104);
  }

  lemma LimitsFrom13()
    ensures Limits(13, 291, 277)
    ensures Limits(14, 283, 269)
  {
    hide Pow, Within, Limits;
    PowChain(13);
    Exact(13, 8, 815730721);
    SquareTimes(13, 8, 815730721, 815730721, 0, 8650415919381337933, 8650415919381337933, 0);
    Square(13, 17, 8650415919381337933, 8650415919381337933, 0, 4056525925620335540, 4056525925620335541, 2);
    SquareTimes(13, 34, 4056525925620335540, 4056525925620335541, 2, 11596639100819412464, 11596639100819412471, 2);
    Square(13, 69, 11596639100819412464, 11596639100819412471, 6, 7290285911556530818, 7290285911556530828, 2);
    SquareTimes(13, 138, 7290285911556530818, 7290285911556530828, 14, 8720730997, 8720730998, 3);
    Times1(13, 277, 8720730997, 8720730998, 31, 13, 302875106592253, 614973793336828, 614973793407347, 1);
    Times1(13, 290, 614973793336828, 614973793407347, 32, 1, 13, 7994659313378764, 7994659314295511, 0);
    LimitsHold(13, 291, 277, 8720730997, 8720730998, 7994659313378764, 7994659314295511);
    PowChain(14);
    Exact(14, 8, 1475789056);
    Square(14, 8, 1475789056, 1475789056, 0, 2177953337809371136, 2177953337809371136, 0);
    SquareTimes(14, 16, 2177953337809371136, 2177953337809371136, 0, 3600024487687016150, 3600024487687016151, 2);
    SquareTimes(14, 33, 3600024487687016150, 3600024487687016151, 2, 9836015919245041848, 9836015919245041854, 2);
    Square(14, 67, 9836015919245041848, 9836015919245041854, 6, 5244676717856501741, 5244676717856501748, 2);
    SquareTimes(14, 134, 5244676717856501741, 5244676717856501748, 14, 4860555413, 4860555414, 3);
    Times1(14, 269, 4860555413, 4860555414, 31, 13, 793714773254144, 898236091602243, 898236091787045, 1);
    Times1(14, 282, 898236091602243, 898236091787045, 32, 1, 14, 12575305282431402, 12575305285018630, 0);
    LimitsHold(14, 283, 269, 4860555413, 4860555414, 12575305282431402, 12575305285018630);
  }

  lemma LimitsFrom15()
    ensures Limits(15, 276, 263)
    ensures Limits(17, 263, 251)
  {
    hide Pow, Within, Limits;
    PowChain(15);
    Exact(15, 8, 2562890625);
    Square(15, 8, 2562890625, 2562890625, 0, 6568408355712890625, 6568408355712890625, 0);
    Square(15, 16, 6568408355712890625, 6568408355712890625, 0, 2338840293712757663, 2338840293712757664, 2);
    SquareTimes(15, 32, 2338840293712757663, 2338840293712757664, 2, 4448080835542014029, 4448080835542014034, 2);
    SquareTimes(15, 65, 4448080835542014029, 4448080835542014034, 6, 16088549047293245268, 16088549047293245305, 2);
    SquareTimes(15, 131, 16088549047293245268, 16088549047293245305, 14, 49005568644, 49005568645, 3);
    Times1(15, 263, 49005568644, 49005568645, 31, 13, 1946195068359375, 22206082012760365, 22206082013213500, 1);
    LimitsHold(15, 276, 263, 49005568644, 49005568645, 22206082012760365, 22206082013213500);
    PowChain(17);
    Exact(17, 7, 410338673);
    SquareTimes(17, 7, 410338673, 410338673, 0, 2862423051509815793, 2862423051509815793, 0);
    SquareTimes(17, 15, 2862423051509815793, 2862423051509815793, 0, 7550867339096805841, 7550867339096805842, 2);
    Square(17, 31, 7550867339096805841, 7550867339096805842, 2, 3090821737690716184, 3090821737690716186, 2);
    SquareTimes(17, 62, 3090821737690716184, 3090821737690716186, 6, 8803940825120696717, 8803940825120696730, 2);
    SquareTimes(17, 125, 8803940825120696717, 8803940825120696730, 14, 16631199274, 16631199275, 3);
    Times1(17, 251, 16631199274, 16631199275, 31, 12, 582622237229761, 2256060607925024, 2256060608060677, 1);
    LimitsHold(17, 263, 251, 16631199274, 16631199275, 2256060607925024, 2256060608060677);
  }

  lemma LimitsFrom18()
    ensures Limits(18, 258, 246)
    ensures Limits(19, 254, 242)
  {
    hide Pow, Within, Limits;
    PowChain(18);
    Exact(18, 7, 612220032);
    SquareTimes(18, 7, 612220032, 612220032, 0, 6746640616477458432, 6746640616477458432, 0);
    Square(18, 15, 6746640616477458432, 6746640616477458432, 0, 2467490166612912639, 2467490166612912640, 2);
    SquareTimes(18, 30, 2467490166612912639, 2467490166612912640, 2, 5941055969771845757, 5941055969771845763, 2);
    SquareTimes(18, 61, 5941055969771845757, 5941055969771845763, 6, 8018999917, 8018999918, 3);
    Square(18, 123, 8018999917, 8018999918, 15, 14972025451, 14972025456, 1);
    Times1(18, 246, 14972025451, 14972025456, 31, 12, 1156831381426176, 4032652099902787, 4032652101249517, 1);
    LimitsHold(18, 258, 246, 14972025451, 14972025456, 4032652099902787, 4032652101249517);
    PowChain(19);
    Exact(19, 7, 893871739);
    SquareTimes(19, 7, 893871739, 893871739, 0, 15181127029874798299, 15181127029874798299, 0);
    Square(19, 15, 15181127029874798299, 15181127029874798299, 0, 12493620390476284487, 12493620390476284488, 2);
    Square(19, 30, 12493620390476284487, 12493620390476284488, 2, 8461685695731329534, 8461685695731329537, 2);
    SquareTimes(19, 60, 8461685695731329534, 8461685695731329537, 6, 17170691939, 17170691940, 3);
    Square(19, 121, 17170691939, 17170691940, 15, 68646078385, 68646078394, 1);
    Times1(19, 242, 68646078385, 68646078394, 31, 12, 2213314919066161, 35375214513602112, 35375214518240061, 1);
    LimitsHold(19, 254, 242, 68646078385, 68646078394, 35375214513602112, 35375214518240061);
  }

  lemma LimitsFrom20()
    ensures Limits(20, 249, 237)
    ensures Limits(21, 245, 234)
  {
    hide Pow, Within, Limits;
    PowChain(20);
    Exact(20, 7, 1280000000);
    Square(20, 7, 1280000000, 1280000000, 0, 1638400000000000000, 1638400000000000000, 0);
    SquareTimes(20, 14, 1638400000000000000, 1638400000000000000, 0, 2910383045673370361, 2910383045673370362, 2);
    SquareTimes(20, 29, 2910383045673370361, 2910383045673370362, 2, 9183549615799121153, 9183549615799121161, 2);
    Square(20, 59, 9183549615799121153, 9183549615799121161, 6, 4571949565129099925, 4571949565129099934, 2);
    SquareTimes(20, 118, 4571949565129099925, 4571949565129099934, 14, 5276589072, 5276589073, 3);
    Times1(20, 237, 5276589072, 5276589073, 31, 12, 4096000000000000, 5032147476196289, 5032147477149964, 1);
    LimitsHold(20, 249, 237, 5276589072, 5276589073, 5032147476196289, 5032147477149964);
    PowChain(21);
    Exact(21, 7, 1801088541);
    Square(21, 7, 1801088541, 1801088541, 0, 3243919932521508681, 3243919932521508681, 0);
    SquareTimes(21, 14, 3243919932521508681, 3243919932521508681, 0, 11979531250491222791, 11979531250491222792, 2);
    Square(21, 29, 11979531250491222791, 11979531250491222792, 2, 7779647639066355604, 7779647639066355606, 2);
    SquareTimes(21, 58, 7779647639066355604, 7779647639066355606, 6, 16042038901, 16042038902, 3);
    Square(21, 117, 16042038901, 16042038902, 15, 59918270469, 59918270478, 1);
    Times1(21, 234, 59918270469, 59918270478, 31, 11, 350277500542221, 4886654675168472, 4886654675902471, 1);
    LimitsHold(21, 245, 234, 59918270469, 59918270478, 4886654675168472, 4886654675902471);
  }

  lemma LimitsFrom22()
    ensures Limits(22, 242, 230)
    ensures Limits(23, 238, 227)
  {
    hide Pow, Within, Limits;
    PowChain(22);
    Exact(22, 7, 2494357888);
    Square(22, 7, 2494357888, 2494357888, 0, 6221821273427820544, 6221821273427820544, 0);
    Square(22, 14, 6221821273427820544, 6221821273427820544, 0, 2098530765309976909, 2098530765309976910, 2);
    SquareTimes(22, 28, 2098530765309976909, 2098530765309976910, 2, 5252107895996387461, 5252107895996387467, 2);
    SquareTimes(22, 57, 5252107895996387461, 5252107895996387467, 6, 7659675580, 7659675581, 3);
    Square(22, 115, 7659675580, 7659675581, 15, 13660320544, 13660320548, 1);
    Times1(22, 230, 13660320544, 13660320548, 31, 12, 12855002631049216, 40885865812677810, 40885865824649965, 1);
    LimitsHold(22, 242, 230, 13660320544, 13660320548, 40885865812677810, 40885865824649965);
    PowChain(23);
    Exact(23, 7, 3404825447);
    Square(23, 7, 3404825447, 3404825447, 0, 11592836324538749809, 11592836324538749809, 0);
    Square(23, 14, 11592836324538749809, 11592836324538749809, 0, 7285505426352410561, 7285505426352410562, 2);
    Square(23, 28, 7285505426352410561, 7285505426352410562, 2, 2877396092520113239, 2877396092520113241, 2);
    SquareTimes(23, 56, 2877396092520113239, 2877396092520113241, 6, 10323035302264945298, 10323035302264945313, 2);
    SquareTimes(23, 113, 10323035302264945298, 10323035302264945313, 14, 30935922944, 30935922945, 3);
    Times1(23, 227, 30935922944, 30935922945, 31, 11, 952809757913927, 6862927519510625, 6862927519732470, 1);
    LimitsHold(23, 238, 227, 30935922944, 30935922945, 6862927519510625, 6862927519732470);
  }

  lemma LimitsFrom24()
    ensures Limits(24, 235, 224)
    ensures Limits(25, 232, 221)
  {
    hide Pow, Within, Limits;
    PowChain(24);
    Exact(24, 7, 4586471424);
    Square(24, 7, 4586471424, 4586471424, 0, 4897760256, 4897760256, 1);
    Square(24, 14, 4897760256, 4897760256, 1, 5585154407, 5585154408, 1);
    Square(24, 28, 5585154407, 5585154408, 3, 7262907398, 7262907402, 1);
    Square(24, 56, 7262907398, 7262907402, 7, 12281775444, 12281775459, 1);
    Square(24, 112, 12281775444, 12281775459, 15, 35120641825, 35120641912, 1);
    Times1(24, 224, 35120641825, 35120641912, 31, 11, 1521681143169024, 12443032674746550, 12443032705570128, 1);
    LimitsHold(24, 235, 224, 35120641825, 35120641912, 12443032674746550, 12443032705570128);
    PowChain(25);
    Exact(25, 13, 1490116119384765625);
    SquareTimes(25, 13, 1490116119384765625, 1490116119384765625, 0, 3009265538105056020, 3009265538105056021, 2);
    SquareTimes(25, 27, 3009265538105056020, 3009265538105056021, 2, 12272733663244316379, 12272733663244316388, 2);
    Square(25, 55, 12272733663244316379, 12272733663244316388, 6, 8165126103939127320, 8165126103939127333, 2);
    SquareTimes(25, 110, 8165126103939127320, 8165126103939127333, 14, 21037116783, 21037116784, 3);
    Times1(25, 221, 21037116783, 21037116784, 31, 11, 2384185791015625, 11677945712107451, 11677945712662563, 1);
    LimitsHold(25, 232, 221, 21037116783, 21037116784, 11677945712107451, 11677945712662563);
  }

  lemma LimitsFrom26()
    ensures Limits(26, 229, 218)
    ensures Limits(27, 227, 216)
  {
    hide Pow, Within, Limits;
    PowChain(26);
    Exact(26, 13, 2481152873203736576);
    SquareTimes(26, 13, 2481152873203736576, 2481152873203736576, 0, 8676821689823496974, 8676821689823496975, 2);
    Square(26, 27, 8676821689823496974, 8676821689823496975, 2, 4081329167692604319, 4081329167692604321, 2);
    SquareTimes(26, 54, 4081329167692604319, 4081329167692604321, 6, 5466344648, 5466344649, 3);
    Square(26, 109, 5466344648, 5466344649, 15, 6957194723, 6957194727, 1);
    Times1(26, 218, 6957194723, 6957194727, 31, 11, 3670344486987776, 5945400636751087, 5945400640169363, 1);
    LimitsHold(26, 229, 218, 6957194723, 6957194727, 5945400636751087, 5945400640169363);
    PowChain(27);
    Exact(27, 13, 4052555153018976267);
    SquareTimes(27, 13, 4052555153018976267, 4052555153018976267, 0, 5596829134, 5596829135, 3);
    Square(27, 27, 5596829134, 5596829135, 3, 7293302648, 7293302652, 1);
    Square(27, 54, 7293302648, 7293302652, 7, 12384788951, 12384788966, 1);
    Square(27, 108, 12384788951, 12384788966, 15, 35712262001, 35712262088, 1);
    Times1(27, 216, 35712262001, 35712262088, 31, 11, 5559060566555523, 46223082447484679, 46223082560090489, 1);
    LimitsHold(27, 227, 216, 35712262001, 35712262088, 46223082447484679, 46223082560090489);
  }

  lemma LimitsFrom28()
    ensures Limits(28, 224, 214)
    ensures Limits(29, 222, 211)
  {
    hide Pow, Within, Limits;
    PowChain(28);
    Exact(28, 13, 6502111422497947648);
    Square(28, 13, 6502111422497947648, 6502111422497947648, 0, 2291865316808533766, 2291865316808533767, 2);
    SquareTimes(28, 26, 2291865316808533766, 2291865316808533767, 2, 7972903243154322550, 7972903243154322558, 2);
    SquareTimes(28, 53, 7972903243154322550, 7972903243154322558, 6, 22465259258, 22465259259, 3);
    Square(28, 107, 22465259258, 22465259259, 15, 117506802438, 117506802449, 1);
    Times1(28, 214, 117506802438, 117506802449, 31, 10, 296196766695424, 8103701972135707, 8103701972894308, 1);
    LimitsHold(28, 224, 214, 117506802438, 117506802449, 8103701972135707, 8103701972894308);
    PowChain(29);
    Exact(29, 13, 10260628712958602189);
    Square(29, 13, 10260628712958602189, 10260628712958602189, 0, 5707267426951356740, 5707267426951356741, 2);
    Square(29, 26, 5707267426951356740, 5707267426951356741, 2, 1765780527587148669, 1765780527587148671, 2);
    SquareTimes(29, 52, 1765780527587148669, 1765780527587148671, 6, 4901756370406954189, 4901756370406954201, 2);
    SquareTimes(29, 105, 4901756370406954189, 4901756370406954201, 14, 8794716775, 8794716776, 3);
    Times1(29, 211, 8794716775, 8794716776, 31, 11, 12200509765705829, 24982734560036187, 24982734562876841, 1);
    LimitsHold(29, 222, 211, 8794716775, 8794716776, 24982734560036187, 24982734562876841);
  }

  lemma LimitsFrom30()
    ensures Limits(30, 220, 209)
    ensures Limits(31, 217, 207)
  {
    hide Pow, Within, Limits;
    PowChain(30);
    Exact(30, 13, 15943230000000000000);
    Square(30, 13, 15943230000000000000, 15943230000000000000, 0, 13779482266204840304, 13779482266204840305, 2);
    Square(30, 26, 13779482266204840304, 13779482266204840305, 2, 10293097294891396285, 10293097294891396288, 2);
    Square(30, 52, 10293097294891396285, 10293097294891396288, 6, 5743444561205698765, 5743444561205698770, 2);
    SquareTimes(30, 104, 5743444561205698765, 5743444561205698770, 14, 12490693099, 12490693100, 3);
    Times1(30, 209, 12490693099, 12490693100, 31, 11, 17714700000000000, 51518175993313849, 51518175997438375, 1);
    LimitsHold(30, 220, 209, 12490693099, 12490693100, 51518175993313849, 51518175997438375);
    PowChain(31);
    Exact(31, 12, 787662783788549761);
    SquareTimes(31, 12, 787662783788549761, 787662783788549761, 0, 1042611770027323643, 1042611770027323644, 2);
    SquareTimes(31, 25, 1042611770027323643, 1042611770027323644, 2, 1826784079528253740, 1826784079528253744, 2);
    SquareTimes(31, 51, 1826784079528253740, 1826784079528253744, 6, 5608108501770469886, 5608108501770469912, 2);
    SquareTimes(31, 103, 5608108501770469886, 5608108501770469912, 14, 12305943733, 12305943734, 3);
    Times1(31, 207, 12305943733, 12305943734, 31, 10, 819628286980801, 2348399623660583, 2348399623851418, 1);
    LimitsHold(31, 217, 207, 12305943733, 12305943734, 2348399623660583, 2348399623851418);
  }

  lemma LimitsFrom33()
    ensures Limits(33, 214, 203)
    ensures Limits(34, 212, 202)
  {
    hide Pow, Within, Limits;
    PowChain(33);
    Exact(33, 12, 1667889514952984961);
    SquareTimes(33, 12, 1667889514952984961, 1667889514952984961, 0, 4976554613548808640, 4976554613548808641, 2);
    Square(33, 25, 4976554613548808640, 4976554613548808641, 2, 1342572744689984155, 1342572744689984157, 2);
    SquareTimes(33, 50, 1342572744689984155, 1342572744689984157, 6, 3224555603428147848, 3224555603428147859, 2);
    SquareTimes(33, 101, 3224555603428147848, 3224555603428147859, 14, 4330859517, 4330859518, 3);
    Times1(33, 203, 4330859517, 4330859518, 31, 11, 50542106513726817, 50964477240154863, 50964477251922615, 1);
    LimitsHold(33, 214, 203, 4330859517, 4330859518, 50964477240154863, 50964477251922615);
    PowChain(34);
    Exact(34, 12, 2386420683693101056);
    SquareTimes(34, 12, 2386420683693101056, 2386420683693101056, 0, 10496710114872989613, 10496710114872989614, 2);
    Square(34, 25, 10496710114872989613, 10496710114872989614, 2, 5972919816928976151, 5972919816928976153, 2);
    SquareTimes(34, 50, 5972919816928976151, 5972919816928976153, 6, 15309912286, 15309912287, 3);
    Square(34, 101, 15309912286, 15309912287, 15, 54573969497, 54573969505, 1);
    Times1(34, 202, 54573969497, 54573969505, 31, 10, 2064377754059776, 26231000335035748, 26231000338880952, 1);
    LimitsHold(34, 212, 202, 54573969497, 54573969505, 26231000335035748, 26231000338880952);
  }

  lemma LimitsFrom35()
    ensures Limits(35, 210, 200)
    ensures Limits(36, 208, 199)
  {
    hide Pow, Within, Limits;
    PowChain(35);
    Exact(35, 12, 3379220508056640625);
    SquareTimes(35, 12, 3379220508056640625, 3379220508056640625, 0, 5044539476, 5044539477, 3);
    Square(35, 25, 5044539476, 5044539477, 3, 5924929521, 5924929524, 1);
    Square(35, 50, 5924929521, 5924929524, 7, 8173470811, 8173470820, 1);
    Square(35, 100, 8173470811, 8173470820, 15, 15554396691, 15554396726, 1);
    Times1(35, 200, 15554396691, 15554396726, 31, 10, 2758547353515625, 9990190115638599, 9990190138118203, 1);
    LimitsHold(35, 210, 200, 15554396691, 15554396726, 9990190115638599, 9990190138118203);
    PowChain(36);
    Exact(36, 12, 4738381338321616896);
    Square(36, 12, 4738381338321616896, 4738381338321616896, 0, 1217139329175911100, 1217139329175911101, 2);
    SquareTimes(36, 24, 1217139329175911100, 1217139329175911101, 2, 2891101706917086131, 2891101706917086137, 2);
    SquareTimes(36, 49, 2891101706917086131, 2891101706917086137, 6, 16312086602830473189, 16312086602830473257, 2);
    SquareTimes(36, 99, 16312086602830473189, 16312086602830473257, 14, 120904357644, 120904357645, 3);
    Times1(36, 199, 120904357644, 120904357645, 31, 9, 101559956668416, 2858937094767417, 2858937094791064, 1);
    LimitsHold(36, 208, 199, 120904357644, 120904357645, 2858937094767417, 2858937094791064);
  }

  lemma LowTable(radix: nat)
    requires 2 <= radix <= 10
    ensures |MAX_EXPONENT| == |UNDERFLOW_EXPONENT| == 35 && UNDERFLOW_EXPONENT[radix - 2] < 0 < MAX_EXPONENT[radix - 2]
    ensures Limits(radix, -UNDERFLOW_EXPONENT[radix - 2], MAX_EXPONENT[radix - 2])
  {
    hide Limits;
    if radix == 2 || radix == 4 || radix == 8 {
      Limits2();
    } else if radix <= 5 {
      LimitsFrom3();
    } else if radix <= 7 {
      LimitsFrom6();
    } else if radix <= 10 {
      LimitsFrom9();
    }
  }

  lemma MiddleTable(radix: nat)
    requires 11 <= radix <= 19
    ensures |MAX_EXPONENT| == |UNDERFLOW_EXPONENT| == 35 && UNDERFLOW_EXPONENT[radix - 2] < 0 < MAX_EXPONENT[radix - 2]
    ensures Limits(radix, -UNDERFLOW_EXPONENT[radix - 2], MAX_EXPONENT[radix - 2])
  {
    hide Limits;
    if radix == 16 {
      Limits2();
    } else if radix <= 12 {
      LimitsFrom11();
    } else if radix <= 14 {
      LimitsFrom13();
    } else if radix <= 17 {
      LimitsFrom15();
    } else if radix <= 19 {
      LimitsFrom18();
    }
  }

  lemma HighTable(radix: nat)
    requires 20 <= radix <= 27
    ensures |MAX_EXPONENT| == |UNDERFLOW_EXPONENT| == 35 && UNDERFLOW_EXPONENT[radix - 2] < 0 < MAX_EXPONENT[radix - 2]
    ensures Limits(radix, -UNDERFLOW_EXPONENT[radix - 2], MAX_EXPONENT[radix - 2])
  {
    hide Limits;
    if radix <= 21 {
      LimitsFrom20();
    } else if radix <= 23 {
      LimitsFrom22();
    } else if radix <= 25 {
      LimitsFrom24();
    } else if radix <= 27 {
      LimitsFrom26();
    }
  }

  lemma TopTable(radix: nat)
    requires 28 <= radix <= 36
    ensures |MAX_EXPONENT| == |UNDERFLOW_EXPONENT| == 35 && UNDERFLOW_EXPONENT[radix - 2] < 0 < MAX_EXPONENT[radix - 2]
    ensures Limits(radix, -UNDERFLOW_EXPONENT[radix - 2], MAX_EXPONENT[radix - 2])
  {
    hide Limits;
    if radix == 32 {
      Limits2();
    } else if radix <= 29 {
      LimitsFrom28();
    } else if radix <= 31 {
      LimitsFrom30();
    } else if radix <= 34 {
      LimitsFrom33();
    } else if radix <= 36 {
      LimitsFrom35();
    }
  }

  lemma PowersToScale(b: nat, i: nat, c: nat, j: nat)
    requires b > 0 && c > 0 && Pow(b, i) <= Pow(c, j)
    ensures Scale(b, i) <= Scale(c, j)
  {
    hide Scale, Pow;
    ScaleNat(b, i);
    ScaleNat(c, j);
  }

  lemma Reversed(b: nat, i: int, c: nat, j: int)
    requires b > 0 && c > 0 && Scale(b, i) <= Scale(c, j)
    ensures Scale(c, -j) <= Scale(b, -i)
  {
    hide Scale;
    ScaleInverse(b, i);
    ScaleInverse(c, j);
    RecipLess(Scale(c, j), Scale(c, -j), Scale(b, -i), Scale(b, i));
  }

  lemma LimitsScale(b: nat, min: nat, max: nat)
    requires b > 0 && Limits(b, min, max)
    ensures ExponentLimits(b, 0 - min, max)
  {
    hide Pow, Scale;
    PowersToScale(2, 1024, b, max);
    PowersToScale(2, 1075, b, min);
    PowersToScale(b, min, 2, 1085);
    Reversed(2, 1075, b, min);
    Reversed(b, min, 2, 1085);
  }

  /** Every entry of both tables is good enough. */
  lemma ExponentTable(radix: nat)
    requires 2 <= radix <= 36
    ensures |MAX_EXPONENT| == |UNDERFLOW_EXPONENT| == 35
    ensures ExponentLimits(radix, UNDERFLOW_EXPONENT[radix - 2], MAX_EXPONENT[radix - 2])
  {
    hide *;
    if radix <= 10 {
      LowTable(radix);
    } else if radix <= 19 {
      MiddleTable(radix);
    } else if radix <= 27 {
      HighTable(radix);
    } else {
      TopTable(radix);
    }
    LimitsScale(radix, -UNDERFLOW_EXPONENT[radix - 2], MAX_EXPONENT[radix - 2]);
  }
}
