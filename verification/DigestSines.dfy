// Where the constants of MD5 come from: the sines of 1 to 64.
module DigestSines {
  import Md5

  // ---- the sine and the cosine of 1 ------------------------------------------------------------

  // Term j of the series of the sine at 1, and of that of the cosine, without their signs.
  function SineTerm(j: nat): real {
    if j == 0 then 1.0 else SineTerm(j - 1) / ((2 * j * (2 * j + 1)) as real)
  }

  function CosineTerm(j: nat): real {
    if j == 0 then 1.0 else CosineTerm(j - 1) / (((2 * j - 1) * (2 * j)) as real)
  }

  // The first n terms, with alternating signs.
  function SineSum(n: nat): real {
    if n == 0 then 0.0 else SineSum(n - 1) + (if n % 2 == 1 then SineTerm(n - 1) else -SineTerm(n - 1))
  }

  function CosineSum(n: nat): real {
    if n == 0 then 0.0 else CosineSum(n - 1) + (if n % 2 == 1 then CosineTerm(n - 1) else -CosineTerm(n - 1))
  }

  // The terms get smaller, so a series is above every even sum and below every odd one.
  predicate SineBound(s: real, n: nat) {
    if n % 2 == 0 then SineSum(n) <= s else s <= SineSum(n)
  }

  predicate CosineBound(c: real, n: nat) {
    if n % 2 == 0 then CosineSum(n) <= c else c <= CosineSum(n)
  }

  ghost predicate OfOne(s: real, c: real) {
    forall n: nat :: SineBound(s, n) && CosineBound(c, n)
  }

  // The sines of 0 to 65: each is 2 cos 1 times the one before less the one before that.
  ghost predicate Steps(v: seq<real>, c: real, n: nat) {
    0 < n && n + 1 < |v| && v[n + 1] == 2.0 * (c * v[n]) - v[n - 1]
  }

  ghost predicate Sines(v: seq<real>, s: real, c: real) {
    && |v| == 66 && v[0] == 0.0 && v[1] == s
    && forall n: nat {:trigger Steps(v, c, n)} :: 1 <= n < 65 ==> Steps(v, c, n)
  }

  function Magnitude(x: real): (r: real)
    ensures r >= 0.0 && (r == x || r == -x)
  {
    if x < 0.0 then -x else x
  }

  // Constant n is the whole part of 2^32 times the magnitude of the sine of n.
  predicate Constant(v: seq<real>, n: nat) {
    && 0 < n <= |Md5.T| && n < |v|
    && Md5.T[n - 1] as real <= 4294967296.0 * Magnitude(v[n]) < Md5.T[n - 1] as real + 1.0
  }

  // ---- what they are nearly --------------------------------------------------------------------

  // To 30 digits, and the sines of 0 to 65.
  const COSINE: real := 0.540302305868139717400936607443
  const S0: real := 0.0
  const S1: real := 0.841470984807896506652502321630
  const S2: real := 0.909297426825681695396019865912
  const S3: real := 0.141120008059867222100744802808
  const S4: real := -0.756802495307928251372639094512
  const S5: real := -0.958924274663138468893154406156
  const S6: real := -0.279415498198925872811555446612
  const S7: real := 0.656986598718789090396999091594
  const S8: real := 0.989358246623381777808123598245
  const S9: real := 0.412118485241756569756272566352
  const S10: real := -0.544021110889369813404747661851
  const S11: real := -0.999990206550703457051564899026
  const S12: real := -0.536572918000434971665374228242
  const S13: real := 0.420167036826640921868955035477
  const S14: real := 0.990607355694870307875354804015
  const S15: real := 0.650287840157116865829740270989
  const S16: real := -0.287903316665065294784456248219
  const S17: real := -0.961397491879556857261636944869
  const S18: real := -0.750987246771676103750156084447
  const S19: real := 0.149877209662952329754239321238
  const S20: real := 0.912945250727627654376099983846
  const S21: real := 0.836655638536056031866480770245
  const S22: real := -0.008851309290403875921690256816
  const S23: real := -0.846220404175170635241326271906
  const S24: real := -0.905578362006623845135793358528
  const S25: real := -0.132351750097773028902005093884
  const S26: real := 0.762558450479602737515823293205
  const S27: real := 0.956375928404503013432340558329
  const S28: real := 0.270905788307869019986343092779
  const S29: real := -0.663633884212967502151173340061
  const S30: real := -0.988031624092861789987748907294
  const S31: real := -0.404037645323065006048770899664
  const S32: real := 0.551426681241690550661558166846
  const S33: real := 0.999911860107267145728084376708
  const S34: real := 0.529082686120023820832487134032
  const S35: real := -0.428182669496151004406752891746
  const S36: real := -0.991778853443115736835288968841
  const S37: real := -0.643538133356999460685670019081
  const S38: real := 0.296368578709385317392296649849
  const S39: real := 0.963795386284087753260664971766
  const S40: real := 0.745113160479348786987709402636
  const S41: real := -0.158622668804708987103317011930
  const S42: real := -0.916521547915633785898989158070
  const S43: real := -0.831774742628598288209578256292
  const S44: real := 0.017701925105413577807954053167
  const S45: real := 0.850903524534118424862379677618
  const S46: real := 0.901788347648809185033293039223
  const S47: real := 0.123573122745224004061529348086
  const S48: real := -0.768254661323666799044965664846
  const S49: real := -0.953752652759471818360423558588
  const S50: real := -0.262374853703928785914393646913
  const S51: real := 0.670229175843374734494345074951
  const S52: real := 0.986627592040485296587568934437
  const S53: real := 0.395925150181834181503386139264
  const S54: real := -0.558789048851616245817871318965
  const S55: real := -0.999755173358619836598631683244
  const S56: real := -0.521551002086911880187410021511
  const S57: real := 0.436164755247824959080534793129
  const S58: real := 0.992872648084537118165088164425
  const S59: real := 0.636738007139137880771233492377
  const S60: real := -0.304810621102216705625649465478
  const S61: real := -0.966117770008392947018287989481
  const S62: real := -0.739180696649222867276016933755
  const S63: real := 0.167355700302806921527838370289
  const S64: real := 0.920026038196790683351536603777
  const S65: real := 0.826828679490103467710212679670

  const UNIT: real := 0.000000000000000000000000000001

  // How far the numbers listed may be off.
  function Error(n: nat): real {
    if n == 0 then 30.0 * UNIT else 1.75 * Error(n - 1)
  }

  lemma SineTerms()
    ensures SineTerm(0) == 1.0
    ensures SineTerm(1) == 1.0 / 6.0
    ensures SineTerm(2) == 1.0 / 120.0
    ensures SineTerm(3) == 1.0 / 5040.0
    ensures SineTerm(4) == 1.0 / 362880.0
    ensures SineTerm(5) == 1.0 / 39916800.0
    ensures SineTerm(6) == 1.0 / 6227020800.0
    ensures SineTerm(7) == 1.0 / 1307674368000.0
    ensures SineTerm(8) == 1.0 / 355687428096000.0
    ensures SineTerm(9) == 1.0 / 121645100408832000.0
    ensures SineTerm(10) == 1.0 / 51090942171709440000.0
    ensures SineTerm(11) == 1.0 / 25852016738884976640000.0
    ensures SineTerm(12) == 1.0 / 15511210043330985984000000.0
    ensures SineTerm(13) == 1.0 / 10888869450418352160768000000.0
    ensures SineTerm(14) == 1.0 / 8841761993739701954543616000000.0
    ensures SineTerm(15) == 1.0 / 8222838654177922817725562880000000.0
    ensures SineTerm(16) == 1.0 / 8683317618811886495518194401280000000.0
  {
  }

  lemma CosineTerms()
    ensures CosineTerm(0) == 1.0
    ensures CosineTerm(1) == 1.0 / 2.0
    ensures CosineTerm(2) == 1.0 / 24.0
    ensures CosineTerm(3) == 1.0 / 720.0
    ensures CosineTerm(4) == 1.0 / 40320.0
    ensures CosineTerm(5) == 1.0 / 3628800.0
    ensures CosineTerm(6) == 1.0 / 479001600.0
    ensures CosineTerm(7) == 1.0 / 87178291200.0
    ensures CosineTerm(8) == 1.0 / 20922789888000.0
    ensures CosineTerm(9) == 1.0 / 6402373705728000.0
    ensures CosineTerm(10) == 1.0 / 2432902008176640000.0
    ensures CosineTerm(11) == 1.0 / 1124000727777607680000.0
    ensures CosineTerm(12) == 1.0 / 620448401733239439360000.0
    ensures CosineTerm(13) == 1.0 / 403291461126605635584000000.0
    ensures CosineTerm(14) == 1.0 / 304888344611713860501504000000.0
    ensures CosineTerm(15) == 1.0 / 265252859812191058636308480000000.0
    ensures CosineTerm(16) == 1.0 / 263130836933693530167218012160000000.0
  {
  }

  lemma SineOfOne(s: real)
    requires SineBound(s, 16) && SineBound(s, 17)
    ensures -UNIT <= s - S1 <= UNIT
  {
    SineTerms();
    assert SineSum(1) == SineSum(0) + SineTerm(0);
    assert SineSum(2) == SineSum(1) - SineTerm(1);
    assert SineSum(3) == SineSum(2) + SineTerm(2);
    assert SineSum(4) == SineSum(3) - SineTerm(3);
    assert SineSum(5) == SineSum(4) + SineTerm(4);
    assert SineSum(6) == SineSum(5) - SineTerm(5);
    assert SineSum(7) == SineSum(6) + SineTerm(6);
    assert SineSum(8) == SineSum(7) - SineTerm(7);
    assert SineSum(9) == SineSum(8) + SineTerm(8);
    assert SineSum(10) == SineSum(9) - SineTerm(9);
    assert SineSum(11) == SineSum(10) + SineTerm(10);
    assert SineSum(12) == SineSum(11) - SineTerm(11);
    assert SineSum(13) == SineSum(12) + SineTerm(12);
    assert SineSum(14) == SineSum(13) - SineTerm(13);
    assert SineSum(15) == SineSum(14) + SineTerm(14);
    assert SineSum(16) == SineSum(15) - SineTerm(15);
    assert SineSum(17) == SineSum(16) + SineTerm(16);
  }

  lemma CosineOfOne(c: real)
    requires CosineBound(c, 16) && CosineBound(c, 17)
    ensures -UNIT <= c - COSINE <= UNIT
  {
    CosineTerms();
    assert CosineSum(1) == CosineSum(0) + CosineTerm(0);
    assert CosineSum(2) == CosineSum(1) - CosineTerm(1);
    assert CosineSum(3) == CosineSum(2) + CosineTerm(2);
    assert CosineSum(4) == CosineSum(3) - CosineTerm(3);
    assert CosineSum(5) == CosineSum(4) + CosineTerm(4);
    assert CosineSum(6) == CosineSum(5) - CosineTerm(5);
    assert CosineSum(7) == CosineSum(6) + CosineTerm(6);
    assert CosineSum(8) == CosineSum(7) - CosineTerm(7);
    assert CosineSum(9) == CosineSum(8) + CosineTerm(8);
    assert CosineSum(10) == CosineSum(9) - CosineTerm(9);
    assert CosineSum(11) == CosineSum(10) + CosineTerm(10);
    assert CosineSum(12) == CosineSum(11) - CosineTerm(11);
    assert CosineSum(13) == CosineSum(12) + CosineTerm(12);
    assert CosineSum(14) == CosineSum(13) - CosineTerm(13);
    assert CosineSum(15) == CosineSum(14) + CosineTerm(14);
    assert CosineSum(16) == CosineSum(15) - CosineTerm(15);
    assert CosineSum(17) == CosineSum(16) + CosineTerm(16);
  }

  lemma OneIs(s: real, c: real)
    requires OfOne(s, c)
    ensures SineBound(s, 16) && SineBound(s, 17) && CosineBound(c, 16) && CosineBound(c, 17)
  {
  }

  // The sine of n is x, but for the error.
  predicate Near(v: seq<real>, n: nat, x: real) {
    n < |v| && -Error(n) <= v[n] - x <= Error(n)
  }

  lemma Bounded(a: real, m: real, b: real, e: real)
    requires -m <= a <= m && -e <= b <= e
    ensures -(m * e) <= a * b <= m * e && a * b == b * a
  {
    assert (m - a) * (e + b) >= 0.0 && (m + a) * (e - b) >= 0.0;
    assert (m - a) * (e - b) >= 0.0 && (m + a) * (e + b) >= 0.0;
  }

  lemma ProductNear(c: real, q: real, d: real, v: real, y: real, e: real)
    requires 0.0 <= c <= 0.541 && -1.0 <= y <= 1.0 && -d <= c - q <= d && -e <= v - y <= e
    ensures -(d + 0.541 * e) <= c * v - q * y <= d + 0.541 * e
  {
    assert c * v - q * y == c * (v - y) + (c - q) * y;
    Bounded(c, 0.541, v - y, e);
    Bounded(y, 1.0, c - q, d);
  }

  // One step of the recurrence adds no more to the error than there is room for.
  lemma StepNear(c: real, x: real, y: real, z: real, u: real, v: real, e: real)
    requires -UNIT <= c - COSINE <= UNIT && -1.0 <= y <= 1.0 && e >= 30.0 * UNIT
    requires -e <= u - x <= e && -(1.75 * e) <= v - y <= 1.75 * e
    requires -2.0 * UNIT <= 2.0 * (COSINE * y) - x - z <= 2.0 * UNIT
    ensures -(1.75 * (1.75 * e)) <= 2.0 * (c * v) - u - z <= 1.75 * (1.75 * e)
  {
    ProductNear(c, COSINE, UNIT, v, y, 1.75 * e);
  }

  lemma {:induction false} ErrorRises(n: nat)
    ensures Error(n) >= 30.0 * UNIT && Error(n + 1) >= Error(n)
  {
    if n > 0 {
      ErrorRises(n - 1);
    }
  }

  lemma {:induction false} ErrorBounds(n: nat)
    requires n <= 64
    ensures 30.0 * UNIT <= Error(n) <= Error(64)
    decreases 64 - n
  {
    ErrorRises(n);
    if n < 64 {
      ErrorBounds(n + 1);
      ErrorRises(n + 1);
    }
  }

  // The numbers follow the recurrence, but for their last digits.
  predicate Follows(x: real, y: real, z: real) {
    -1.0 <= y <= 1.0 && -2.0 * UNIT <= 2.0 * (COSINE * y) - x - z <= 2.0 * UNIT
  }

  lemma Next(v: seq<real>, s: real, c: real, n: nat, next: nat, x: real, y: real, z: real)
    requires Sines(v, s, c) && n < 64 && next == n + 1 && -UNIT <= c - COSINE <= UNIT
    requires Near(v, n, x) && Near(v, next, y) && Follows(x, y, z)
    ensures Near(v, next + 1, z)
  {
    ErrorBounds(n);
    assert Steps(v, c, next);
    StepNear(c, x, y, z, v[n], v[next], Error(n));
  }

  // The error does not reach the next whole number.
  predicate Clear(x: real, t: nat) {
    && 4294967296.0 * (Magnitude(x) - 0.000000000001) >= t as real
    && 4294967296.0 * (Magnitude(x) + 0.000000000001) < t as real + 1.0
  }

  lemma {:induction false} EightMore(n: nat)
    ensures Error(n + 8) <= 88.0 * Error(n) && Error(n) > 0.0
  {
    ErrorRises(n);
    assert Error(n + 8) == 1.75 * Error(n + 7) && Error(n + 7) == 1.75 * Error(n + 6) && Error(n + 6) == 1.75 * Error(n + 5);
    assert Error(n + 5) == 1.75 * Error(n + 4) && Error(n + 4) == 1.75 * Error(n + 3) && Error(n + 3) == 1.75 * Error(n + 2);
    assert Error(n + 2) == 1.75 * Error(n + 1) && Error(n + 1) == 1.75 * Error(n);
  }

  lemma LastError()
    ensures Error(64) <= 0.000000000001
  {
    EightMore(0);
    EightMore(8);
    EightMore(16);
    EightMore(24);
    EightMore(32);
    EightMore(40);
    EightMore(48);
    EightMore(56);
  }

  lemma PartIs(v: seq<real>, n: nat, x: real, t: nat)
    requires n <= 64 && Near(v, n, x) && Clear(x, t)
    ensures t as real <= 4294967296.0 * Magnitude(v[n]) < t as real + 1.0
  {
    ErrorBounds(n);
    LastError();
  }

  lemma FirstFour(v: seq<real>, s: real, c: real)
    requires Sines(v, s, c) && -UNIT <= c - COSINE <= UNIT && Near(v, 0, S0) && Near(v, 1, S1)
    ensures Near(v, 4, S4) && Near(v, 5, S5)
    ensures Constant(v, 1) && Constant(v, 2) && Constant(v, 3) && Constant(v, 4)
  {
    Next(v, s, c, 0, 1, S0, S1, S2);
    Next(v, s, c, 1, 2, S1, S2, S3);
    Next(v, s, c, 2, 3, S2, S3, S4);
    Next(v, s, c, 3, 4, S3, S4, S5);
    PartIs(v, 1, S1, Md5.T[0]);
    PartIs(v, 2, S2, Md5.T[1]);
    PartIs(v, 3, S3, Md5.T[2]);
    PartIs(v, 4, S4, Md5.T[3]);
  }

  lemma SecondFour(v: seq<real>, s: real, c: real)
    requires Sines(v, s, c) && -UNIT <= c - COSINE <= UNIT && Near(v, 4, S4) && Near(v, 5, S5)
    ensures Near(v, 8, S8) && Near(v, 9, S9)
    ensures Constant(v, 5) && Constant(v, 6) && Constant(v, 7) && Constant(v, 8)
  {
    Next(v, s, c, 4, 5, S4, S5, S6);
    Next(v, s, c, 5, 6, S5, S6, S7);
    Next(v, s, c, 6, 7, S6, S7, S8);
    Next(v, s, c, 7, 8, S7, S8, S9);
    PartIs(v, 5, S5, Md5.T[4]);
    PartIs(v, 6, S6, Md5.T[5]);
    PartIs(v, 7, S7, Md5.T[6]);
    PartIs(v, 8, S8, Md5.T[7]);
  }

  lemma ThirdFour(v: seq<real>, s: real, c: real)
    requires Sines(v, s, c) && -UNIT <= c - COSINE <= UNIT && Near(v, 8, S8) && Near(v, 9, S9)
    ensures Near(v, 12, S12) && Near(v, 13, S13)
    ensures Constant(v, 9) && Constant(v, 10) && Constant(v, 11) && Constant(v, 12)
  {
    Next(v, s, c, 8, 9, S8, S9, S10);
    Next(v, s, c, 9, 10, S9, S10, S11);
    Next(v, s, c, 10, 11, S10, S11, S12);
    Next(v, s, c, 11, 12, S11, S12, S13);
    PartIs(v, 9, S9, Md5.T[8]);
    PartIs(v, 10, S10, Md5.T[9]);
    PartIs(v, 11, S11, Md5.T[10]);
    PartIs(v, 12, S12, Md5.T[11]);
  }

  lemma FourthFour(v: seq<real>, s: real, c: real)
    requires Sines(v, s, c) && -UNIT <= c - COSINE <= UNIT && Near(v, 12, S12) && Near(v, 13, S13)
    ensures Near(v, 16, S16) && Near(v, 17, S17)
    ensures Constant(v, 13) && Constant(v, 14) && Constant(v, 15) && Constant(v, 16)
  {
    Next(v, s, c, 12, 13, S12, S13, S14);
    Next(v, s, c, 13, 14, S13, S14, S15);
    Next(v, s, c, 14, 15, S14, S15, S16);
    Next(v, s, c, 15, 16, S15, S16, S17);
    PartIs(v, 13, S13, Md5.T[12]);
    PartIs(v, 14, S14, Md5.T[13]);
    PartIs(v, 15, S15, Md5.T[14]);
    PartIs(v, 16, S16, Md5.T[15]);
  }

  lemma FifthFour(v: seq<real>, s: real, c: real)
    requires Sines(v, s, c) && -UNIT <= c - COSINE <= UNIT && Near(v, 16, S16) && Near(v, 17, S17)
    ensures Near(v, 20, S20) && Near(v, 21, S21)
    ensures Constant(v, 17) && Constant(v, 18) && Constant(v, 19) && Constant(v, 20)
  {
    Next(v, s, c, 16, 17, S16, S17, S18);
    Next(v, s, c, 17, 18, S17, S18, S19);
    Next(v, s, c, 18, 19, S18, S19, S20);
    Next(v, s, c, 19, 20, S19, S20, S21);
    PartIs(v, 17, S17, Md5.T[16]);
    PartIs(v, 18, S18, Md5.T[17]);
    PartIs(v, 19, S19, Md5.T[18]);
    PartIs(v, 20, S20, Md5.T[19]);
  }

  lemma SixthFour(v: seq<real>, s: real, c: real)
    requires Sines(v, s, c) && -UNIT <= c - COSINE <= UNIT && Near(v, 20, S20) && Near(v, 21, S21)
    ensures Near(v, 24, S24) && Near(v, 25, S25)
    ensures Constant(v, 21) && Constant(v, 22) && Constant(v, 23) && Constant(v, 24)
  {
    Next(v, s, c, 20, 21, S20, S21, S22);
    Next(v, s, c, 21, 22, S21, S22, S23);
    Next(v, s, c, 22, 23, S22, S23, S24);
    Next(v, s, c, 23, 24, S23, S24, S25);
    PartIs(v, 21, S21, Md5.T[20]);
    PartIs(v, 22, S22, Md5.T[21]);
    PartIs(v, 23, S23, Md5.T[22]);
    PartIs(v, 24, S24, Md5.T[23]);
  }

  lemma SeventhFour(v: seq<real>, s: real, c: real)
    requires Sines(v, s, c) && -UNIT <= c - COSINE <= UNIT && Near(v, 24, S24) && Near(v, 25, S25)
    ensures Near(v, 28, S28) && Near(v, 29, S29)
    ensures Constant(v, 25) && Constant(v, 26) && Constant(v, 27) && Constant(v, 28)
  {
    Next(v, s, c, 24, 25, S24, S25, S26);
    Next(v, s, c, 25, 26, S25, S26, S27);
    Next(v, s, c, 26, 27, S26, S27, S28);
    Next(v, s, c, 27, 28, S27, S28, S29);
    PartIs(v, 25, S25, Md5.T[24]);
    PartIs(v, 26, S26, Md5.T[25]);
    PartIs(v, 27, S27, Md5.T[26]);
    PartIs(v, 28, S28, Md5.T[27]);
  }

  lemma EighthFour(v: seq<real>, s: real, c: real)
    requires Sines(v, s, c) && -UNIT <= c - COSINE <= UNIT && Near(v, 28, S28) && Near(v, 29, S29)
    ensures Near(v, 32, S32) && Near(v, 33, S33)
    ensures Constant(v, 29) && Constant(v, 30) && Constant(v, 31) && Constant(v, 32)
  {
    Next(v, s, c, 28, 29, S28, S29, S30);
    Next(v, s, c, 29, 30, S29, S30, S31);
    Next(v, s, c, 30, 31, S30, S31, S32);
    Next(v, s, c, 31, 32, S31, S32, S33);
    PartIs(v, 29, S29, Md5.T[28]);
    PartIs(v, 30, S30, Md5.T[29]);
    PartIs(v, 31, S31, Md5.T[30]);
    PartIs(v, 32, S32, Md5.T[31]);
  }

  lemma NinthFour(v: seq<real>, s: real, c: real)
    requires Sines(v, s, c) && -UNIT <= c - COSINE <= UNIT && Near(v, 32, S32) && Near(v, 33, S33)
    ensures Near(v, 36, S36) && Near(v, 37, S37)
    ensures Constant(v, 33) && Constant(v, 34) && Constant(v, 35) && Constant(v, 36)
  {
    Next(v, s, c, 32, 33, S32, S33, S34);
    Next(v, s, c, 33, 34, S33, S34, S35);
    Next(v, s, c, 34, 35, S34, S35, S36);
    Next(v, s, c, 35, 36, S35, S36, S37);
    PartIs(v, 33, S33, Md5.T[32]);
    PartIs(v, 34, S34, Md5.T[33]);
    PartIs(v, 35, S35, Md5.T[34]);
    PartIs(v, 36, S36, Md5.T[35]);
  }

  lemma TenthFour(v: seq<real>, s: real, c: real)
    requires Sines(v, s, c) && -UNIT <= c - COSINE <= UNIT && Near(v, 36, S36) && Near(v, 37, S37)
    ensures Near(v, 40, S40) && Near(v, 41, S41)
    ensures Constant(v, 37) && Constant(v, 38) && Constant(v, 39) && Constant(v, 40)
  {
    Next(v, s, c, 36, 37, S36, S37, S38);
    Next(v, s, c, 37, 38, S37, S38, S39);
    Next(v, s, c, 38, 39, S38, S39, S40);
    Next(v, s, c, 39, 40, S39, S40, S41);
    PartIs(v, 37, S37, Md5.T[36]);
    PartIs(v, 38, S38, Md5.T[37]);
    PartIs(v, 39, S39, Md5.T[38]);
    PartIs(v, 40, S40, Md5.T[39]);
  }

  lemma EleventhFour(v: seq<real>, s: real, c: real)
    requires Sines(v, s, c) && -UNIT <= c - COSINE <= UNIT && Near(v, 40, S40) && Near(v, 41, S41)
    ensures Near(v, 44, S44) && Near(v, 45, S45)
    ensures Constant(v, 41) && Constant(v, 42) && Constant(v, 43) && Constant(v, 44)
  {
    Next(v, s, c, 40, 41, S40, S41, S42);
    Next(v, s, c, 41, 42, S41, S42, S43);
    Next(v, s, c, 42, 43, S42, S43, S44);
    Next(v, s, c, 43, 44, S43, S44, S45);
    PartIs(v, 41, S41, Md5.T[40]);
    PartIs(v, 42, S42, Md5.T[41]);
    PartIs(v, 43, S43, Md5.T[42]);
    PartIs(v, 44, S44, Md5.T[43]);
  }

  lemma TwelfthFour(v: seq<real>, s: real, c: real)
    requires Sines(v, s, c) && -UNIT <= c - COSINE <= UNIT && Near(v, 44, S44) && Near(v, 45, S45)
    ensures Near(v, 48, S48) && Near(v, 49, S49)
    ensures Constant(v, 45) && Constant(v, 46) && Constant(v, 47) && Constant(v, 48)
  {
    Next(v, s, c, 44, 45, S44, S45, S46);
    Next(v, s, c, 45, 46, S45, S46, S47);
    Next(v, s, c, 46, 47, S46, S47, S48);
    Next(v, s, c, 47, 48, S47, S48, S49);
    PartIs(v, 45, S45, Md5.T[44]);
    PartIs(v, 46, S46, Md5.T[45]);
    PartIs(v, 47, S47, Md5.T[46]);
    PartIs(v, 48, S48, Md5.T[47]);
  }

  lemma ThirteenthFour(v: seq<real>, s: real, c: real)
    requires Sines(v, s, c) && -UNIT <= c - COSINE <= UNIT && Near(v, 48, S48) && Near(v, 49, S49)
    ensures Near(v, 52, S52) && Near(v, 53, S53)
    ensures Constant(v, 49) && Constant(v, 50) && Constant(v, 51) && Constant(v, 52)
  {
    Next(v, s, c, 48, 49, S48, S49, S50);
    Next(v, s, c, 49, 50, S49, S50, S51);
    Next(v, s, c, 50, 51, S50, S51, S52);
    Next(v, s, c, 51, 52, S51, S52, S53);
    PartIs(v, 49, S49, Md5.T[48]);
    PartIs(v, 50, S50, Md5.T[49]);
    PartIs(v, 51, S51, Md5.T[50]);
    PartIs(v, 52, S52, Md5.T[51]);
  }

  lemma FourteenthFour(v: seq<real>, s: real, c: real)
    requires Sines(v, s, c) && -UNIT <= c - COSINE <= UNIT && Near(v, 52, S52) && Near(v, 53, S53)
    ensures Near(v, 56, S56) && Near(v, 57, S57)
    ensures Constant(v, 53) && Constant(v, 54) && Constant(v, 55) && Constant(v, 56)
  {
    Next(v, s, c, 52, 53, S52, S53, S54);
    Next(v, s, c, 53, 54, S53, S54, S55);
    Next(v, s, c, 54, 55, S54, S55, S56);
    Next(v, s, c, 55, 56, S55, S56, S57);
    PartIs(v, 53, S53, Md5.T[52]);
    PartIs(v, 54, S54, Md5.T[53]);
    PartIs(v, 55, S55, Md5.T[54]);
    PartIs(v, 56, S56, Md5.T[55]);
  }

  lemma FifteenthFour(v: seq<real>, s: real, c: real)
    requires Sines(v, s, c) && -UNIT <= c - COSINE <= UNIT && Near(v, 56, S56) && Near(v, 57, S57)
    ensures Near(v, 60, S60) && Near(v, 61, S61)
    ensures Constant(v, 57) && Constant(v, 58) && Constant(v, 59) && Constant(v, 60)
  {
    Next(v, s, c, 56, 57, S56, S57, S58);
    Next(v, s, c, 57, 58, S57, S58, S59);
    Next(v, s, c, 58, 59, S58, S59, S60);
    Next(v, s, c, 59, 60, S59, S60, S61);
    PartIs(v, 57, S57, Md5.T[56]);
    PartIs(v, 58, S58, Md5.T[57]);
    PartIs(v, 59, S59, Md5.T[58]);
    PartIs(v, 60, S60, Md5.T[59]);
  }

  lemma LastFour(v: seq<real>, s: real, c: real)
    requires Sines(v, s, c) && -UNIT <= c - COSINE <= UNIT && Near(v, 60, S60) && Near(v, 61, S61)
    ensures Near(v, 64, S64) && Near(v, 65, S65)
    ensures Constant(v, 61) && Constant(v, 62) && Constant(v, 63) && Constant(v, 64)
  {
    Next(v, s, c, 60, 61, S60, S61, S62);
    Next(v, s, c, 61, 62, S61, S62, S63);
    Next(v, s, c, 62, 63, S62, S63, S64);
    Next(v, s, c, 63, 64, S63, S64, S65);
    PartIs(v, 61, S61, Md5.T[60]);
    PartIs(v, 62, S62, Md5.T[61]);
    PartIs(v, 63, S63, Md5.T[62]);
    PartIs(v, 64, S64, Md5.T[63]);
  }

  // The constants of MD5 are those of the sines of 1 to 32 ...
  lemma FirstConstantsAreSines(v: seq<real>, s: real, c: real)
    requires OfOne(s, c) && Sines(v, s, c)
    ensures -UNIT <= c - COSINE <= UNIT && Near(v, 32, S32) && Near(v, 33, S33)
    ensures Constant(v, 1) && Constant(v, 2) && Constant(v, 3) && Constant(v, 4) && Constant(v, 5) && Constant(v, 6) && Constant(v, 7) && Constant(v, 8)
    ensures Constant(v, 9) && Constant(v, 10) && Constant(v, 11) && Constant(v, 12) && Constant(v, 13) && Constant(v, 14) && Constant(v, 15) && Constant(v, 16)
    ensures Constant(v, 17) && Constant(v, 18) && Constant(v, 19) && Constant(v, 20) && Constant(v, 21) && Constant(v, 22) && Constant(v, 23) && Constant(v, 24)
    ensures Constant(v, 25) && Constant(v, 26) && Constant(v, 27) && Constant(v, 28) && Constant(v, 29) && Constant(v, 30) && Constant(v, 31) && Constant(v, 32)
  {
    OneIs(s, c);
    SineOfOne(s);
    CosineOfOne(c);
    assert Near(v, 0, S0) && Near(v, 1, S1) by {
      ErrorBounds(0);
      ErrorBounds(1);
    }
    FirstFour(v, s, c);
    SecondFour(v, s, c);
    ThirdFour(v, s, c);
    FourthFour(v, s, c);
    FifthFour(v, s, c);
    SixthFour(v, s, c);
    SeventhFour(v, s, c);
    EighthFour(v, s, c);
  }

  // ... and of 33 to 64.
  lemma LastConstantsAreSines(v: seq<real>, s: real, c: real)
    requires OfOne(s, c) && Sines(v, s, c)
    ensures Constant(v, 33) && Constant(v, 34) && Constant(v, 35) && Constant(v, 36) && Constant(v, 37) && Constant(v, 38) && Constant(v, 39) && Constant(v, 40)
    ensures Constant(v, 41) && Constant(v, 42) && Constant(v, 43) && Constant(v, 44) && Constant(v, 45) && Constant(v, 46) && Constant(v, 47) && Constant(v, 48)
    ensures Constant(v, 49) && Constant(v, 50) && Constant(v, 51) && Constant(v, 52) && Constant(v, 53) && Constant(v, 54) && Constant(v, 55) && Constant(v, 56)
    ensures Constant(v, 57) && Constant(v, 58) && Constant(v, 59) && Constant(v, 60) && Constant(v, 61) && Constant(v, 62) && Constant(v, 63) && Constant(v, 64)
  {
    FirstConstantsAreSines(v, s, c);
    NinthFour(v, s, c);
    TenthFour(v, s, c);
    EleventhFour(v, s, c);
    TwelfthFour(v, s, c);
    ThirteenthFour(v, s, c);
    FourteenthFour(v, s, c);
    FifteenthFour(v, s, c);
    LastFour(v, s, c);
  }
}
