/** The table of cached powers of ten of to_chars.hpp and the choice among its
    entries.  All 79 constants are checked here against the exact powers. */
module CachedPowers {
  import opened Powers

  const ALPHA: int := -60
  const GAMMA: int := -32
  const MIN_DEC_EXP: int := -300
  const DEC_STEP: int := 8

  /** f * 2^e, an approximation of 10^k. */
  datatype CachedPower = CachedPower(f: int, e: int, k: int)

  /** The table, in blocks of twenty. */
  function Entry(index: int): CachedPower
    requires 0 <= index < 79
  {
    if index < 20 then From0(index)
    else if index < 40 then From20(index)
    else if index < 60 then From40(index)
    else From60(index)
  }

  function From0(index: int): CachedPower {
    match index
    case 0 => CachedPower(0xAB70FE17C79AC6CA, -1060, -300)
    case 1 => CachedPower(0xFF77B1FCBEBCDC4F, -1034, -292)
    case 2 => CachedPower(0xBE5691EF416BD60C, -1007, -284)
    case 3 => CachedPower(0x8DD01FAD907FFC3C, -980, -276)
    case 4 => CachedPower(0xD3515C2831559A83, -954, -268)
    case 5 => CachedPower(0x9D71AC8FADA6C9B5, -927, -260)
    case 6 => CachedPower(0xEA9C227723EE8BCB, -901, -252)
    case 7 => CachedPower(0xAECC49914078536D, -874, -244)
    case 8 => CachedPower(0x823C12795DB6CE57, -847, -236)
    case 9 => CachedPower(0xC21094364DFB5637, -821, -228)
    case 10 => CachedPower(0x9096EA6F3848984F, -794, -220)
    case 11 => CachedPower(0xD77485CB25823AC7, -768, -212)
    case 12 => CachedPower(0xA086CFCD97BF97F4, -741, -204)
    case 13 => CachedPower(0xEF340A98172AACE5, -715, -196)
    case 14 => CachedPower(0xB23867FB2A35B28E, -688, -188)
    case 15 => CachedPower(0x84C8D4DFD2C63F3B, -661, -180)
    case 16 => CachedPower(0xC5DD44271AD3CDBA, -635, -172)
    case 17 => CachedPower(0x936B9FCEBB25C996, -608, -164)
    case 18 => CachedPower(0xDBAC6C247D62A584, -582, -156)
    case _ => CachedPower(0xA3AB66580D5FDAF6, -555, -148)
  }

  function From20(index: int): CachedPower {
    match index
    case 20 => CachedPower(0xF3E2F893DEC3F126, -529, -140)
    case 21 => CachedPower(0xB5B5ADA8AAFF80B8, -502, -132)
    case 22 => CachedPower(0x87625F056C7C4A8B, -475, -124)
    case 23 => CachedPower(0xC9BCFF6034C13053, -449, -116)
    case 24 => CachedPower(0x964E858C91BA2655, -422, -108)
    case 25 => CachedPower(0xDFF9772470297EBD, -396, -100)
    case 26 => CachedPower(0xA6DFBD9FB8E5B88F, -369, -92)
    case 27 => CachedPower(0xF8A95FCF88747D94, -343, -84)
    case 28 => CachedPower(0xB94470938FA89BCF, -316, -76)
    case 29 => CachedPower(0x8A08F0F8BF0F156B, -289, -68)
    case 30 => CachedPower(0xCDB02555653131B6, -263, -60)
    case 31 => CachedPower(0x993FE2C6D07B7FAC, -236, -52)
    case 32 => CachedPower(0xE45C10C42A2B3B06, -210, -44)
    case 33 => CachedPower(0xAA242499697392D3, -183, -36)
    case 34 => CachedPower(0xFD87B5F28300CA0E, -157, -28)
    case 35 => CachedPower(0xBCE5086492111AEB, -130, -20)
    case 36 => CachedPower(0x8CBCCC096F5088CC, -103, -12)
    case 37 => CachedPower(0xD1B71758E219652C, -77, -4)
    case 38 => CachedPower(0x9C40000000000000, -50, 4)
    case _ => CachedPower(0xE8D4A51000000000, -24, 12)
  }

  function From40(index: int): CachedPower {
    match index
    case 40 => CachedPower(0xAD78EBC5AC620000, 3, 20)
    case 41 => CachedPower(0x813F3978F8940984, 30, 28)
    case 42 => CachedPower(0xC097CE7BC90715B3, 56, 36)
    case 43 => CachedPower(0x8F7E32CE7BEA5C70, 83, 44)
    case 44 => CachedPower(0xD5D238A4ABE98068, 109, 52)
    case 45 => CachedPower(0x9F4F2726179A2245, 136, 60)
    case 46 => CachedPower(0xED63A231D4C4FB27, 162, 68)
    case 47 => CachedPower(0xB0DE65388CC8ADA8, 189, 76)
    case 48 => CachedPower(0x83C7088E1AAB65DB, 216, 84)
    case 49 => CachedPower(0xC45D1DF942711D9A, 242, 92)
    case 50 => CachedPower(0x924D692CA61BE758, 269, 100)
    case 51 => CachedPower(0xDA01EE641A708DEA, 295, 108)
    case 52 => CachedPower(0xA26DA3999AEF774A, 322, 116)
    case 53 => CachedPower(0xF209787BB47D6B85, 348, 124)
    case 54 => CachedPower(0xB454E4A179DD1877, 375, 132)
    case 55 => CachedPower(0x865B86925B9BC5C2, 402, 140)
    case 56 => CachedPower(0xC83553C5C8965D3D, 428, 148)
    case 57 => CachedPower(0x952AB45CFA97A0B3, 455, 156)
    case 58 => CachedPower(0xDE469FBD99A05FE3, 481, 164)
    case _ => CachedPower(0xA59BC234DB398C25, 508, 172)
  }

  function From60(index: int): CachedPower {
    match index
    case 60 => CachedPower(0xF6C69A72A3989F5C, 534, 180)
    case 61 => CachedPower(0xB7DCBF5354E9BECE, 561, 188)
    case 62 => CachedPower(0x88FCF317F22241E2, 588, 196)
    case 63 => CachedPower(0xCC20CE9BD35C78A5, 614, 204)
    case 64 => CachedPower(0x98165AF37B2153DF, 641, 212)
    case 65 => CachedPower(0xE2A0B5DC971F303A, 667, 220)
    case 66 => CachedPower(0xA8D9D1535CE3B396, 694, 228)
    case 67 => CachedPower(0xFB9B7CD9A4A7443C, 720, 236)
    case 68 => CachedPower(0xBB764C4CA7A44410, 747, 244)
    case 69 => CachedPower(0x8BAB8EEFB6409C1A, 774, 252)
    case 70 => CachedPower(0xD01FEF10A657842C, 800, 260)
    case 71 => CachedPower(0x9B10A4E5E9913129, 827, 268)
    case 72 => CachedPower(0xE7109BFBA19C0C9D, 853, 276)
    case 73 => CachedPower(0xAC2820D9623BF429, 880, 284)
    case 74 => CachedPower(0x80444B5E7AA7CF85, 907, 292)
    case 75 => CachedPower(0xBF21E44003ACDD2D, 933, 300)
    case 76 => CachedPower(0x8E679C2F5E44FF8F, 960, 308)
    case 77 => CachedPower(0xD433179D9C8CB841, 986, 316)
    case _ => CachedPower(0x9E19DB92B4E31BA9, 1013, 324)
  }

  /** Integer division as C++ has it: rounding toward zero. */
  function TruncDiv(a: int, b: int): int
    requires b > 0
  {
    if a >= 0 then a / b else -((-a) / b)
  }

  function IndexFor(e: int): int {
    var f := ALPHA - e - 1;
    var k := TruncDiv(f * 78913, 0x4_0000) + (if f > 0 then 1 else 0);
    TruncDiv(-MIN_DEC_EXP + k + (DEC_STEP - 1), DEC_STEP)
  }

  /** For the binary exponent of any normalized double or boundary, the lookup
      stays inside the table and scales into the window [ALPHA, GAMMA]. */
  function CachedPowerFor(e: int): (c: CachedPower)
    requires -1137 <= e <= 960
    ensures ALPHA <= c.e + e + 64 <= -34 < GAMMA
    ensures TWO63 <= c.f < TWO64
    ensures 0 <= IndexFor(e) < 79 && c == Entry(IndexFor(e))
  {
    Entry(IndexFor(e))
  }

  /** c.f is the exact 10^k / 2^e rounded to an integer: with the fraction written
      as Exact / Unit, it is off by at most one half. */
  ghost predicate Accurate(c: CachedPower) {
    Within(c.f, Unit(c), Exact(c))
  }

  ghost predicate Within(f: int, u: int, x: int) {
    0 - u <= 2 * (f * u - x) <= u
  }

  function Unit(c: CachedPower): (u: nat)
    ensures u > 0
  {
    Up(2, c.e) * Down(10, c.k)
  }

  function Exact(c: CachedPower): (x: nat)
    ensures x > 0
  {
    Up(10, c.k) * Down(2, c.e)
  }

  const TEN8: int := 100000000
  const TEN60: int := 1000000000000000000000000000000000000000000000000000000000000
  const TWO26: int := 0x400_0000
  const TWO27: int := 0x800_0000
  const TWO178: int := 0x400000000000000000000000000000000000000000000

  /** The exact powers of ten: 10^-k below index 38, 10^k from there on. */
  function TenAt(index: int): int
    requires 0 <= index < 79
    decreases if index < 38 then 38 - index else index
  {
    if index == 37 || index == 38 then 10000
    else if index < 37 then TenAt(index + 1) * TEN8
    else TenAt(index - 1) * TEN8
  }

  /** The exact powers of two: 2^-e below index 38, 2^e from 40 on. */
  function TwoAt(index: int): int
    requires 0 <= index < 79 && index != 38 && index != 39
    decreases if index < 38 then 38 - index else index
  {
    if index == 37 then 0x20000000000000000000
    else if index == 40 then 8
    else if index < 37 then TwoAt(index + 1) * Gap(index)
    else TwoAt(index - 1) * Gap(index - 1)
  }

  /** The binary exponents of neighbouring entries are 26 or 27 apart. */
  function Gap(index: int): int
    requires 0 <= index < 78
  {
    if Entry(index + 1).e - Entry(index).e == 26 then TWO26 else TWO27
  }

  lemma DecimalStep(index: int)
    requires 0 <= index < 79
    ensures Entry(index).k == MIN_DEC_EXP + DEC_STEP * index
  {
  }

  lemma BinaryStep(index: int)
    requires 0 <= index < 78
    ensures 26 <= Entry(index + 1).e - Entry(index).e <= 27
  {
  }

  lemma StepPowers()
    ensures Pow(10, 8) == TEN8 && Pow(2, 26) == TWO26 && Pow(2, 27) == TWO27
  {
    PowAdd(10, 4, 4);
    PowAdd(2, 6, 7);
    PowAdd(2, 13, 13);
    assert Pow(2, 27) == 2 * Pow(2, 26);
  }

  lemma Step(index: int, f: int, ten: int, two: int)
    requires 0 <= index < 79 && index != 38 && index != 39
    requires Entry(index).f == f && TenAt(index) == ten && TwoAt(index) == two
    requires if index < 38 then Within(f, ten, two) else Within(f, two, ten)
    ensures Checked(index)
    ensures 0 < index <= 37 ==> TenAt(index - 1) == ten * TEN8 && TwoAt(index - 1) == two * Gap(index - 1)
    ensures 40 <= index < 78 ==> TenAt(index + 1) == ten * TEN8 && TwoAt(index + 1) == two * Gap(index)
  {
  }

  ghost predicate Checked(index: int)
    requires 0 <= index < 79 && index != 38 && index != 39
  {
    if index < 38 then Within(Entry(index).f, TenAt(index), TwoAt(index))
    else Within(Entry(index).f, TwoAt(index), TenAt(index))
  }

  lemma SmallEntries(index: int)
    requires 0 <= index < 38
    ensures Checked(index)
  {
    var ten, two := 10000, 0x20000000000000000000;
    Step(37, 0xD1B71758E219652C, ten, two);
    ten, two := ten * TEN8, two * TWO26; Step(36, 0x8CBCCC096F5088CC, ten, two);
    ten, two := ten * TEN8, two * TWO27; Step(35, 0xBCE5086492111AEB, ten, two);
    ten, two := ten * TEN8, two * TWO27; Step(34, 0xFD87B5F28300CA0E, ten, two);
    ten, two := ten * TEN8, two * TWO26; Step(33, 0xAA242499697392D3, ten, two);
    ten, two := ten * TEN8, two * TWO27; Step(32, 0xE45C10C42A2B3B06, ten, two);
    ten, two := ten * TEN8, two * TWO26; Step(31, 0x993FE2C6D07B7FAC, ten, two);
    ten, two := ten * TEN8, two * TWO27; Step(30, 0xCDB02555653131B6, ten, two);
    ten, two := ten * TEN8, two * TWO26; Step(29, 0x8A08F0F8BF0F156B, ten, two);
    ten, two := ten * TEN8, two * TWO27; Step(28, 0xB94470938FA89BCF, ten, two);
    ten, two := ten * TEN8, two * TWO27; Step(27, 0xF8A95FCF88747D94, ten, two);
    ten, two := ten * TEN8, two * TWO26; Step(26, 0xA6DFBD9FB8E5B88F, ten, two);
    ten, two := ten * TEN8, two * TWO27; Step(25, 0xDFF9772470297EBD, ten, two);
    ten, two := ten * TEN8, two * TWO26; Step(24, 0x964E858C91BA2655, ten, two);
    ten, two := ten * TEN8, two * TWO27; Step(23, 0xC9BCFF6034C13053, ten, two);
    ten, two := ten * TEN8, two * TWO26; Step(22, 0x87625F056C7C4A8B, ten, two);
    ten, two := ten * TEN8, two * TWO27; Step(21, 0xB5B5ADA8AAFF80B8, ten, two);
    ten, two := ten * TEN8, two * TWO27; Step(20, 0xF3E2F893DEC3F126, ten, two);
    ten, two := ten * TEN8, two * TWO26; Step(19, 0xA3AB66580D5FDAF6, ten, two);
    ten, two := ten * TEN8, two * TWO27; Step(18, 0xDBAC6C247D62A584, ten, two);
    ten, two := ten * TEN8, two * TWO26; Step(17, 0x936B9FCEBB25C996, ten, two);
    ten, two := ten * TEN8, two * TWO27; Step(16, 0xC5DD44271AD3CDBA, ten, two);
    ten, two := ten * TEN8, two * TWO26; Step(15, 0x84C8D4DFD2C63F3B, ten, two);
    ten, two := ten * TEN8, two * TWO27; Step(14, 0xB23867FB2A35B28E, ten, two);
    ten, two := ten * TEN8, two * TWO27; Step(13, 0xEF340A98172AACE5, ten, two);
    ten, two := ten * TEN8, two * TWO26; Step(12, 0xA086CFCD97BF97F4, ten, two);
    ten, two := ten * TEN8, two * TWO27; Step(11, 0xD77485CB25823AC7, ten, two);
    ten, two := ten * TEN8, two * TWO26; Step(10, 0x9096EA6F3848984F, ten, two);
    ten, two := ten * TEN8, two * TWO27; Step(9, 0xC21094364DFB5637, ten, two);
    ten, two := ten * TEN8, two * TWO26; Step(8, 0x823C12795DB6CE57, ten, two);
    ten, two := ten * TEN8, two * TWO27; Step(7, 0xAECC49914078536D, ten, two);
    ten, two := ten * TEN8, two * TWO27; Step(6, 0xEA9C227723EE8BCB, ten, two);
    ten, two := ten * TEN8, two * TWO26; Step(5, 0x9D71AC8FADA6C9B5, ten, two);
    ten, two := ten * TEN8, two * TWO27; Step(4, 0xD3515C2831559A83, ten, two);
    ten, two := ten * TEN8, two * TWO26; Step(3, 0x8DD01FAD907FFC3C, ten, two);
    ten, two := ten * TEN8, two * TWO27; Step(2, 0xBE5691EF416BD60C, ten, two);
    ten, two := ten * TEN8, two * TWO27; Step(1, 0xFF77B1FCBEBCDC4F, ten, two);
    ten, two := ten * TEN8, two * TWO26; Step(0, 0xAB70FE17C79AC6CA, ten, two);
  }

  lemma LargeEntries(index: int)
    requires 40 <= index < 60
    ensures Checked(index)
    ensures TenAt(60) == TEN60 * TEN60 * TEN60 && TwoAt(60) == TWO178 * TWO178 * TWO178
  {
    var ten, two := 100000000000000000000, 0x8;
    Step(40, 0xAD78EBC5AC620000, ten, two);
    ten, two := ten * TEN8, two * TWO27; Step(41, 0x813F3978F8940984, ten, two);
    ten, two := ten * TEN8, two * TWO26; Step(42, 0xC097CE7BC90715B3, ten, two);
    ten, two := ten * TEN8, two * TWO27; Step(43, 0x8F7E32CE7BEA5C70, ten, two);
    ten, two := ten * TEN8, two * TWO26; Step(44, 0xD5D238A4ABE98068, ten, two);
    ten, two := ten * TEN8, two * TWO27; Step(45, 0x9F4F2726179A2245, ten, two);
    ten, two := ten * TEN8, two * TWO26; Step(46, 0xED63A231D4C4FB27, ten, two);
    ten, two := ten * TEN8, two * TWO27; Step(47, 0xB0DE65388CC8ADA8, ten, two);
    ten, two := ten * TEN8, two * TWO27; Step(48, 0x83C7088E1AAB65DB, ten, two);
    ten, two := ten * TEN8, two * TWO26; Step(49, 0xC45D1DF942711D9A, ten, two);
    ten, two := ten * TEN8, two * TWO27; Step(50, 0x924D692CA61BE758, ten, two);
    ten, two := ten * TEN8, two * TWO26; Step(51, 0xDA01EE641A708DEA, ten, two);
    ten, two := ten * TEN8, two * TWO27; Step(52, 0xA26DA3999AEF774A, ten, two);
    ten, two := ten * TEN8, two * TWO26; Step(53, 0xF209787BB47D6B85, ten, two);
    ten, two := ten * TEN8, two * TWO27; Step(54, 0xB454E4A179DD1877, ten, two);
    ten, two := ten * TEN8, two * TWO27; Step(55, 0x865B86925B9BC5C2, ten, two);
    ten, two := ten * TEN8, two * TWO26; Step(56, 0xC83553C5C8965D3D, ten, two);
    ten, two := ten * TEN8, two * TWO27; Step(57, 0x952AB45CFA97A0B3, ten, two);
    ten, two := ten * TEN8, two * TWO26; Step(58, 0xDE469FBD99A05FE3, ten, two);
    ten, two := ten * TEN8, two * TWO27; Step(59, 0xA59BC234DB398C25, ten, two);
  }

  lemma LargestEntries(index: int)
    requires 60 <= index < 79
    ensures Checked(index)
  {
    var ten, two := TEN60 * TEN60 * TEN60, TWO178 * TWO178 * TWO178;
    LargeEntries(40);
    Step(60, 0xF6C69A72A3989F5C, ten, two);
    ten, two := ten * TEN8, two * TWO27; Step(61, 0xB7DCBF5354E9BECE, ten, two);
    ten, two := ten * TEN8, two * TWO27; Step(62, 0x88FCF317F22241E2, ten, two);
    ten, two := ten * TEN8, two * TWO26; Step(63, 0xCC20CE9BD35C78A5, ten, two);
    ten, two := ten * TEN8, two * TWO27; Step(64, 0x98165AF37B2153DF, ten, two);
    ten, two := ten * TEN8, two * TWO26; Step(65, 0xE2A0B5DC971F303A, ten, two);
    ten, two := ten * TEN8, two * TWO27; Step(66, 0xA8D9D1535CE3B396, ten, two);
    ten, two := ten * TEN8, two * TWO26; Step(67, 0xFB9B7CD9A4A7443C, ten, two);
    ten, two := ten * TEN8, two * TWO27; Step(68, 0xBB764C4CA7A44410, ten, two);
    ten, two := ten * TEN8, two * TWO27; Step(69, 0x8BAB8EEFB6409C1A, ten, two);
    ten, two := ten * TEN8, two * TWO26; Step(70, 0xD01FEF10A657842C, ten, two);
    ten, two := ten * TEN8, two * TWO27; Step(71, 0x9B10A4E5E9913129, ten, two);
    ten, two := ten * TEN8, two * TWO26; Step(72, 0xE7109BFBA19C0C9D, ten, two);
    ten, two := ten * TEN8, two * TWO27; Step(73, 0xAC2820D9623BF429, ten, two);
    ten, two := ten * TEN8, two * TWO27; Step(74, 0x80444B5E7AA7CF85, ten, two);
    ten, two := ten * TEN8, two * TWO26; Step(75, 0xBF21E44003ACDD2D, ten, two);
    ten, two := ten * TEN8, two * TWO27; Step(76, 0x8E679C2F5E44FF8F, ten, two);
    ten, two := ten * TEN8, two * TWO26; Step(77, 0xD433179D9C8CB841, ten, two);
    ten, two := ten * TEN8, two * TWO27; Step(78, 0x9E19DB92B4E31BA9, ten, two);
  }

  lemma {:induction false} TenAtIsPower(index: int)
    requires 0 <= index < 79
    ensures TenAt(index) == Pow(10, if index < 38 then 300 - 8 * index else 8 * index - 300)
    decreases if index < 38 then 38 - index else index
  {
    StepPowers();
    if index == 37 || index == 38 {
    } else if index < 37 {
      TenAtIsPower(index + 1);
      PowAdd(10, 300 - 8 * (index + 1), 8);
    } else {
      TenAtIsPower(index - 1);
      PowAdd(10, 8 * (index - 1) - 300, 8);
    }
  }

  lemma {:induction false} TwoAtSmall(index: int)
    requires 0 <= index < 38
    ensures Entry(index).e <= -77 && TwoAt(index) == Pow(2, -Entry(index).e)
    decreases 38 - index
  {
    if index == 37 {
      StartPower();
    } else {
      TwoAtSmall(index + 1);
      BinaryStep(index);
      GapPower(index, -Entry(index + 1).e);
    }
  }

  lemma {:induction false} TwoAtLarge(index: int)
    requires 40 <= index < 79
    ensures TwoIs(index, Entry(index).e)
  {
    if index == 40 {
      assert Entry(40).e == 3 && Pow(2, 3) == 8;
    } else {
      TwoAtLarge(index - 1);
      NextTwo(index, Entry(index - 1).e, Entry(index).e);
    }
  }

  predicate TwoIs(index: int, e: int)
    requires 40 <= index < 79
  {
    e >= 3 && TwoAt(index) == Pow(2, e)
  }

  lemma NextTwo(index: int, e: int, e': int)
    requires 40 < index < 79 && TwoIs(index - 1, e) && e == Entry(index - 1).e && e' == Entry(index).e
    ensures TwoIs(index, e')
  {
    BinaryStep(index - 1);
    GapPower(index - 1, e);
    assert e + (e' - e) == e';
  }

  lemma GapPower(index: int, n: nat)
    requires 0 <= index < 78
    ensures var d := Entry(index + 1).e - Entry(index).e;
      26 <= d <= 27 ==> Pow(2, n) * Gap(index) == Pow(2, n + d)
  {
    StepPowers();
    PowAdd(2, n, 26);
    PowAdd(2, n, 27);
  }

  lemma StartPower()
    ensures Pow(2, 77) == 0x20000000000000000000
  {
    Scale(2, 7, 0x80, 7, 0x80);
    Scale(2, 14, 0x4000, 14, 0x4000);
    Scale(2, 28, 0x10000000, 28, 0x10000000);
    Scale(2, 56, 0x100000000000000, 14, 0x4000);
    Scale(2, 70, 0x400000000000000000, 7, 0x80);
  }

  lemma AccurateEntry(index: int)
    requires 0 <= index < 79
    ensures Accurate(Entry(index))
  {
    if index == 38 || index == 39 {
      ExactEntries();
    } else {
      DecimalStep(index);
      TenAtIsPower(index);
      if index < 38 {
        TwoAtSmall(index);
        SmallEntries(index);
        AccurateSmall(Entry(index), TenAt(index), TwoAt(index));
      } else {
        TwoAtLarge(index);
        if index < 60 { LargeEntries(index); } else { LargestEntries(index); }
        AccurateLarge(Entry(index), TenAt(index), TwoAt(index));
      }
    }
  }

  lemma AccurateSmall(c: CachedPower, ten: int, two: int)
    requires c.e < 0 && c.k < 0 && ten == Pow(10, -c.k) && two == Pow(2, -c.e) && Within(c.f, ten, two)
    ensures Accurate(c)
  {
    assert Unit(c) == ten && Exact(c) == two;
  }

  lemma AccurateLarge(c: CachedPower, ten: int, two: int)
    requires c.e > 0 && c.k > 0 && ten == Pow(10, c.k) && two == Pow(2, c.e) && Within(c.f, two, ten)
    ensures Accurate(c)
  {
    assert Unit(c) == two && Exact(c) == ten;
  }

  /** 10^4 and 10^12 fit into 64 bits and are stored without error. */
  lemma ExactEntries()
    ensures Accurate(Entry(38)) && Accurate(Entry(39))
  {
    Accurate38();
    Accurate39();
  }

  lemma Accurate38()
    ensures Accurate(Entry(38))
  {
    StepPowers();
    PowAdd(10, 4, 8);
    PowAdd(2, 12, 12);
    PowAdd(2, 26, 24);
  }

  lemma Accurate39()
    ensures Accurate(Entry(39))
  {
    StepPowers();
    PowAdd(10, 4, 8);
    PowAdd(2, 12, 12);
    PowAdd(2, 26, 24);
  }
}
