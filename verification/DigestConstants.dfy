// Where the numbers in the digests come from: roots of primes.
module DigestConstants {
  import opened Bytes
  import Md5
  import Sha1
  import Sha256

  // k is the first 32 bits behind the point of the cube root of p.
  predicate CubeRootBits(p: nat, whole: nat, k: nat) {
    var x := whole * U32 + k;
    k < U32 && x * x * x <= p * (U32 * U32 * U32) < (x + 1) * (x + 1) * (x + 1)
  }

  // ... of the square root of p.
  predicate SquareRootBits(p: nat, whole: nat, k: nat) {
    var x := whole * U32 + k;
    k < U32 && x * x <= p * (U32 * U32) < (x + 1) * (x + 1)
  }

  // The whole part of the cube root of a number below 343.
  function CubeRoot(p: nat): nat {
    if p < 8 then 1 else if p < 27 then 2 else if p < 64 then 3 else if p < 125 then 4 else if p < 216 then 5 else 6
  }

  function SquareRoot(p: nat): nat {
    if p < 4 then 1 else if p < 9 then 2 else if p < 16 then 3 else 4
  }

  // Constant i of SHA-256 is of the cube root of p.
  predicate Root(i: nat, p: nat) {
    i < |Sha256.K| && CubeRootBits(p, CubeRoot(p), Sha256.K[i])
  }

  lemma FirstEight()
    ensures
      && Root(0, 2) && Root(1, 3) && Root(2, 5) && Root(3, 7) && Root(4, 11) && Root(5, 13) && Root(6, 17) && Root(7, 19)
  {
  }

  lemma SecondEight()
    ensures
      && Root(8, 23) && Root(9, 29) && Root(10, 31) && Root(11, 37) && Root(12, 41) && Root(13, 43) && Root(14, 47) && Root(15, 53)
  {
  }

  lemma ThirdEight()
    ensures
      && Root(16, 59) && Root(17, 61) && Root(18, 67) && Root(19, 71) && Root(20, 73) && Root(21, 79) && Root(22, 83) && Root(23, 89)
  {
  }

  lemma FourthEight()
    ensures
      && Root(24, 97) && Root(25, 101) && Root(26, 103) && Root(27, 107) && Root(28, 109) && Root(29, 113) && Root(30, 127) && Root(31, 131)
  {
  }

  lemma FifthEight()
    ensures
      && Root(32, 137) && Root(33, 139) && Root(34, 149) && Root(35, 151) && Root(36, 157) && Root(37, 163) && Root(38, 167) && Root(39, 173)
  {
  }

  lemma SixthEight()
    ensures
      && Root(40, 179) && Root(41, 181) && Root(42, 191) && Root(43, 193) && Root(44, 197) && Root(45, 199) && Root(46, 211) && Root(47, 223)
  {
  }

  lemma SeventhEight()
    ensures
      && Root(48, 227) && Root(49, 229) && Root(50, 233) && Root(51, 239) && Root(52, 241) && Root(53, 251) && Root(54, 257) && Root(55, 263)
  {
  }

  lemma LastEight()
    ensures
      && Root(56, 269) && Root(57, 271) && Root(58, 277) && Root(59, 281) && Root(60, 283) && Root(61, 293) && Root(62, 307) && Root(63, 311)
  {
  }

  // Word i of what its hash value starts from is of the square root of p.
  predicate Start(i: nat, p: nat) {
    i < |Sha256.IV| && SquareRootBits(p, SquareRoot(p), Sha256.IV[i])
  }

  lemma Starts()
    ensures
      && Start(0, 2) && Start(1, 3) && Start(2, 5) && Start(3, 7) && Start(4, 11) && Start(5, 13) && Start(6, 17) && Start(7, 19)
  {
  }

  // SHA-1's constants are the square roots of 2, 3, 5 and 10, times 2^30.
  lemma ConstantsOfSha1(t: nat)
    ensures var k, n := Sha1.K(t), if t < 20 then 2 else if t < 40 then 3 else if t < 60 then 5 else 10;
      k * k <= n * 0x1000_0000_0000_0000 < (k + 1) * (k + 1)
  {
  }

  // What SHA-1 and MD5 start from: the hexadecimal digits going up and down, in little-endian
  // bytes, and for SHA-1 one word more.
  lemma StartsCount()
    ensures Md5.IV == [Value([0x01, 0x23, 0x45, 0x67]), Value([0x89, 0xab, 0xcd, 0xef]),
                       Value([0xfe, 0xdc, 0xba, 0x98]), Value([0x76, 0x54, 0x32, 0x10])]
    ensures Sha1.IV == Md5.IV + [Value([0xf0, 0xe1, 0xd2, 0xc3])]
  {
    ValueOfFour([0x01, 0x23, 0x45, 0x67]);
    ValueOfFour([0x89, 0xab, 0xcd, 0xef]);
    ValueOfFour([0xfe, 0xdc, 0xba, 0x98]);
    ValueOfFour([0x76, 0x54, 0x32, 0x10]);
    ValueOfFour([0xf0, 0xe1, 0xd2, 0xc3]);
  }
}
