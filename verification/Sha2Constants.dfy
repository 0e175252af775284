/** Where the numbers of SHA-2 come from, sections 4.2 and 5.3 of FIPS 180-4, and what its word functions mean. */
module Sha2Constants {
  import opened Sha2Spec
  import opened Sha2Stream
  import opened Sha2Macros

  // ---- Round constants and initial values ----

  /** The first eighty primes, in rows of eight. */
  const PRIMES: seq<seq<nat>> := [
    [2, 3, 5, 7, 11, 13, 17, 19],
    [23, 29, 31, 37, 41, 43, 47, 53],
    [59, 61, 67, 71, 73, 79, 83, 89],
    [97, 101, 103, 107, 109, 113, 127, 131],
    [137, 139, 149, 151, 157, 163, 167, 173],
    [179, 181, 191, 193, 197, 199, 211, 223],
    [227, 229, 233, 239, 241, 251, 257, 263],
    [269, 271, 277, 281, 283, 293, 307, 311],
    [313, 317, 331, 337, 347, 349, 353, 359],
    [367, 373, 379, 383, 389, 397, 401, 409]]

  const WORD32 := 0x1_0000_0000
  const WORD64 := 0x1_0000_0000_0000_0000

  function Square(x: nat): nat { x * x }

  function Cube(x: nat): nat { x * x * x }

  predicate Between(x: nat, y: nat, z: nat) { x <= y < z }

  /** k is the first word of the fraction of the cube root of p: written with some whole part q in front, it is the
      root of p times the word size, rounded down. */
  ghost predicate CubeRootWord(k: nat, p: nat, m: nat) {
    k < m && exists q: nat :: Between(Cube(q * m + k), p * Cube(m), Cube(q * m + k + 1))
  }

  /** The same for square roots. */
  ghost predicate SquareRootWord(k: nat, p: nat, m: nat) {
    k < m && exists q: nat :: Between(Square(q * m + k), p * Square(m), Square(q * m + k + 1))
  }

  lemma FromCube(q: nat, k: nat, p: nat, m: nat)
    requires k < m && Between(Cube(q * m + k), p * Cube(m), Cube(q * m + k + 1))
    ensures CubeRootWord(k, p, m)
  {
  }

  lemma FromSquare(q: nat, k: nat, p: nat, m: nat)
    requires k < m && Between(Square(q * m + k), p * Square(m), Square(q * m + k + 1))
    ensures SquareRootWord(k, p, m)
  {
  }

  lemma Row256A()
    ensures forall i: nat | i < 8 :: CubeRootWord(K256[0][i], PRIMES[0][i], WORD32)
  {
    hide CubeRootWord;
    FromCube(1, 0x428a2f98, 2, WORD32);
    FromCube(1, 0x71374491, 3, WORD32);
    FromCube(1, 0xb5c0fbcf, 5, WORD32);
    FromCube(1, 0xe9b5dba5, 7, WORD32);
    FromCube(2, 0x3956c25b, 11, WORD32);
    FromCube(2, 0x59f111f1, 13, WORD32);
    FromCube(2, 0x923f82a4, 17, WORD32);
    FromCube(2, 0xab1c5ed5, 19, WORD32);
  }

  lemma Row256B()
    ensures forall i: nat | i < 8 :: CubeRootWord(K256[1][i], PRIMES[1][i], WORD32)
  {
    hide CubeRootWord;
    FromCube(2, 0xd807aa98, 23, WORD32);
    FromCube(3, 0x12835b01, 29, WORD32);
    FromCube(3, 0x243185be, 31, WORD32);
    FromCube(3, 0x550c7dc3, 37, WORD32);
    FromCube(3, 0x72be5d74, 41, WORD32);
    FromCube(3, 0x80deb1fe, 43, WORD32);
    FromCube(3, 0x9bdc06a7, 47, WORD32);
    FromCube(3, 0xc19bf174, 53, WORD32);
  }

  lemma Row256C()
    ensures forall i: nat | i < 8 :: CubeRootWord(K256[2][i], PRIMES[2][i], WORD32)
  {
    hide CubeRootWord;
    FromCube(3, 0xe49b69c1, 59, WORD32);
    FromCube(3, 0xefbe4786, 61, WORD32);
    FromCube(4, 0x0fc19dc6, 67, WORD32);
    FromCube(4, 0x240ca1cc, 71, WORD32);
    FromCube(4, 0x2de92c6f, 73, WORD32);
    FromCube(4, 0x4a7484aa, 79, WORD32);
    FromCube(4, 0x5cb0a9dc, 83, WORD32);
    FromCube(4, 0x76f988da, 89, WORD32);
  }

  lemma Row256D()
    ensures forall i: nat | i < 8 :: CubeRootWord(K256[3][i], PRIMES[3][i], WORD32)
  {
    hide CubeRootWord;
    FromCube(4, 0x983e5152, 97, WORD32);
    FromCube(4, 0xa831c66d, 101, WORD32);
    FromCube(4, 0xb00327c8, 103, WORD32);
    FromCube(4, 0xbf597fc7, 107, WORD32);
    FromCube(4, 0xc6e00bf3, 109, WORD32);
    FromCube(4, 0xd5a79147, 113, WORD32);
    FromCube(5, 0x06ca6351, 127, WORD32);
    FromCube(5, 0x14292967, 131, WORD32);
  }

  lemma Row256E()
    ensures forall i: nat | i < 8 :: CubeRootWord(K256[4][i], PRIMES[4][i], WORD32)
  {
    hide CubeRootWord;
    FromCube(5, 0x27b70a85, 137, WORD32);
    FromCube(5, 0x2e1b2138, 139, WORD32);
    FromCube(5, 0x4d2c6dfc, 149, WORD32);
    FromCube(5, 0x53380d13, 151, WORD32);
    FromCube(5, 0x650a7354, 157, WORD32);
    FromCube(5, 0x766a0abb, 163, WORD32);
    FromCube(5, 0x81c2c92e, 167, WORD32);
    FromCube(5, 0x92722c85, 173, WORD32);
  }

  lemma Row256F()
    ensures forall i: nat | i < 8 :: CubeRootWord(K256[5][i], PRIMES[5][i], WORD32)
  {
    hide CubeRootWord;
    FromCube(5, 0xa2bfe8a1, 179, WORD32);
    FromCube(5, 0xa81a664b, 181, WORD32);
    FromCube(5, 0xc24b8b70, 191, WORD32);
    FromCube(5, 0xc76c51a3, 193, WORD32);
    FromCube(5, 0xd192e819, 197, WORD32);
    FromCube(5, 0xd6990624, 199, WORD32);
    FromCube(5, 0xf40e3585, 211, WORD32);
    FromCube(6, 0x106aa070, 223, WORD32);
  }

  lemma Row256G()
    ensures forall i: nat | i < 8 :: CubeRootWord(K256[6][i], PRIMES[6][i], WORD32)
  {
    hide CubeRootWord;
    FromCube(6, 0x19a4c116, 227, WORD32);
    FromCube(6, 0x1e376c08, 229, WORD32);
    FromCube(6, 0x2748774c, 233, WORD32);
    FromCube(6, 0x34b0bcb5, 239, WORD32);
    FromCube(6, 0x391c0cb3, 241, WORD32);
    FromCube(6, 0x4ed8aa4a, 251, WORD32);
    FromCube(6, 0x5b9cca4f, 257, WORD32);
    FromCube(6, 0x682e6ff3, 263, WORD32);
  }

  lemma Row256H()
    ensures forall i: nat | i < 8 :: CubeRootWord(K256[7][i], PRIMES[7][i], WORD32)
  {
    hide CubeRootWord;
    FromCube(6, 0x748f82ee, 269, WORD32);
    FromCube(6, 0x78a5636f, 271, WORD32);
    FromCube(6, 0x84c87814, 277, WORD32);
    FromCube(6, 0x8cc70208, 281, WORD32);
    FromCube(6, 0x90befffa, 283, WORD32);
    FromCube(6, 0xa4506ceb, 293, WORD32);
    FromCube(6, 0xbef9a3f7, 307, WORD32);
    FromCube(6, 0xc67178f2, 311, WORD32);
  }

  lemma Row512A()
    ensures forall i: nat | i < 8 :: CubeRootWord(K512[0][i], PRIMES[0][i], WORD64)
  {
    hide CubeRootWord;
    FromCube(1, 0x428a2f98d728ae22, 2, WORD64);
    FromCube(1, 0x7137449123ef65cd, 3, WORD64);
    FromCube(1, 0xb5c0fbcfec4d3b2f, 5, WORD64);
    FromCube(1, 0xe9b5dba58189dbbc, 7, WORD64);
    FromCube(2, 0x3956c25bf348b538, 11, WORD64);
    FromCube(2, 0x59f111f1b605d019, 13, WORD64);
    FromCube(2, 0x923f82a4af194f9b, 17, WORD64);
    FromCube(2, 0xab1c5ed5da6d8118, 19, WORD64);
  }

  lemma Row512B()
    ensures forall i: nat | i < 8 :: CubeRootWord(K512[1][i], PRIMES[1][i], WORD64)
  {
    hide CubeRootWord;
    FromCube(2, 0xd807aa98a3030242, 23, WORD64);
    FromCube(3, 0x12835b0145706fbe, 29, WORD64);
    FromCube(3, 0x243185be4ee4b28c, 31, WORD64);
    FromCube(3, 0x550c7dc3d5ffb4e2, 37, WORD64);
    FromCube(3, 0x72be5d74f27b896f, 41, WORD64);
    FromCube(3, 0x80deb1fe3b1696b1, 43, WORD64);
    FromCube(3, 0x9bdc06a725c71235, 47, WORD64);
    FromCube(3, 0xc19bf174cf692694, 53, WORD64);
  }

  lemma Row512C()
    ensures forall i: nat | i < 8 :: CubeRootWord(K512[2][i], PRIMES[2][i], WORD64)
  {
    hide CubeRootWord;
    FromCube(3, 0xe49b69c19ef14ad2, 59, WORD64);
    FromCube(3, 0xefbe4786384f25e3, 61, WORD64);
    FromCube(4, 0x0fc19dc68b8cd5b5, 67, WORD64);
    FromCube(4, 0x240ca1cc77ac9c65, 71, WORD64);
    FromCube(4, 0x2de92c6f592b0275, 73, WORD64);
    FromCube(4, 0x4a7484aa6ea6e483, 79, WORD64);
    FromCube(4, 0x5cb0a9dcbd41fbd4, 83, WORD64);
    FromCube(4, 0x76f988da831153b5, 89, WORD64);
  }

  lemma Row512D()
    ensures forall i: nat | i < 8 :: CubeRootWord(K512[3][i], PRIMES[3][i], WORD64)
  {
    hide CubeRootWord;
    FromCube(4, 0x983e5152ee66dfab, 97, WORD64);
    FromCube(4, 0xa831c66d2db43210, 101, WORD64);
    FromCube(4, 0xb00327c898fb213f, 103, WORD64);
    FromCube(4, 0xbf597fc7beef0ee4, 107, WORD64);
    FromCube(4, 0xc6e00bf33da88fc2, 109, WORD64);
    FromCube(4, 0xd5a79147930aa725, 113, WORD64);
    FromCube(5, 0x06ca6351e003826f, 127, WORD64);
    FromCube(5, 0x142929670a0e6e70, 131, WORD64);
  }

  lemma Row512E()
    ensures forall i: nat | i < 8 :: CubeRootWord(K512[4][i], PRIMES[4][i], WORD64)
  {
    hide CubeRootWord;
    FromCube(5, 0x27b70a8546d22ffc, 137, WORD64);
    FromCube(5, 0x2e1b21385c26c926, 139, WORD64);
    FromCube(5, 0x4d2c6dfc5ac42aed, 149, WORD64);
    FromCube(5, 0x53380d139d95b3df, 151, WORD64);
    FromCube(5, 0x650a73548baf63de, 157, WORD64);
    FromCube(5, 0x766a0abb3c77b2a8, 163, WORD64);
    FromCube(5, 0x81c2c92e47edaee6, 167, WORD64);
    FromCube(5, 0x92722c851482353b, 173, WORD64);
  }

  lemma Row512F()
    ensures forall i: nat | i < 8 :: CubeRootWord(K512[5][i], PRIMES[5][i], WORD64)
  {
    hide CubeRootWord;
    FromCube(5, 0xa2bfe8a14cf10364, 179, WORD64);
    FromCube(5, 0xa81a664bbc423001, 181, WORD64);
    FromCube(5, 0xc24b8b70d0f89791, 191, WORD64);
    FromCube(5, 0xc76c51a30654be30, 193, WORD64);
    FromCube(5, 0xd192e819d6ef5218, 197, WORD64);
    FromCube(5, 0xd69906245565a910, 199, WORD64);
    FromCube(5, 0xf40e35855771202a, 211, WORD64);
    FromCube(6, 0x106aa07032bbd1b8, 223, WORD64);
  }

  lemma Row512G()
    ensures forall i: nat | i < 8 :: CubeRootWord(K512[6][i], PRIMES[6][i], WORD64)
  {
    hide CubeRootWord;
    FromCube(6, 0x19a4c116b8d2d0c8, 227, WORD64);
    FromCube(6, 0x1e376c085141ab53, 229, WORD64);
    FromCube(6, 0x2748774cdf8eeb99, 233, WORD64);
    FromCube(6, 0x34b0bcb5e19b48a8, 239, WORD64);
    FromCube(6, 0x391c0cb3c5c95a63, 241, WORD64);
    FromCube(6, 0x4ed8aa4ae3418acb, 251, WORD64);
    FromCube(6, 0x5b9cca4f7763e373, 257, WORD64);
    FromCube(6, 0x682e6ff3d6b2b8a3, 263, WORD64);
  }

  lemma Row512H()
    ensures forall i: nat | i < 8 :: CubeRootWord(K512[7][i], PRIMES[7][i], WORD64)
  {
    hide CubeRootWord;
    FromCube(6, 0x748f82ee5defb2fc, 269, WORD64);
    FromCube(6, 0x78a5636f43172f60, 271, WORD64);
    FromCube(6, 0x84c87814a1f0ab72, 277, WORD64);
    FromCube(6, 0x8cc702081a6439ec, 281, WORD64);
    FromCube(6, 0x90befffa23631e28, 283, WORD64);
    FromCube(6, 0xa4506cebde82bde9, 293, WORD64);
    FromCube(6, 0xbef9a3f7b2c67915, 307, WORD64);
    FromCube(6, 0xc67178f2e372532b, 311, WORD64);
  }

  lemma Row512I()
    ensures forall i: nat | i < 8 :: CubeRootWord(K512[8][i], PRIMES[8][i], WORD64)
  {
    hide CubeRootWord;
    FromCube(6, 0xca273eceea26619c, 313, WORD64);
    FromCube(6, 0xd186b8c721c0c207, 317, WORD64);
    FromCube(6, 0xeada7dd6cde0eb1e, 331, WORD64);
    FromCube(6, 0xf57d4f7fee6ed178, 337, WORD64);
    FromCube(7, 0x06f067aa72176fba, 347, WORD64);
    FromCube(7, 0x0a637dc5a2c898a6, 349, WORD64);
    FromCube(7, 0x113f9804bef90dae, 353, WORD64);
    FromCube(7, 0x1b710b35131c471b, 359, WORD64);
  }

  lemma Row512J()
    ensures forall i: nat | i < 8 :: CubeRootWord(K512[9][i], PRIMES[9][i], WORD64)
  {
    hide CubeRootWord;
    FromCube(7, 0x28db77f523047d84, 367, WORD64);
    FromCube(7, 0x32caab7b40c72493, 373, WORD64);
    FromCube(7, 0x3c9ebe0a15c9bebc, 379, WORD64);
    FromCube(7, 0x431d67c49c100d4c, 383, WORD64);
    FromCube(7, 0x4cc5d4becb3e42b6, 389, WORD64);
    FromCube(7, 0x597f299cfc657e2a, 397, WORD64);
    FromCube(7, 0x5fcb6fab3ad6faec, 401, WORD64);
    FromCube(7, 0x6c44198c4a475817, 409, WORD64);
  }

  lemma Row256(r: nat)
    requires r < 8
    ensures forall i: nat | i < 8 :: CubeRootWord(K256[r][i], PRIMES[r][i], WORD32)
  {
    hide CubeRootWord;
    match r
    case 0 => Row256A();
    case 1 => Row256B();
    case 2 => Row256C();
    case 3 => Row256D();
    case 4 => Row256E();
    case 5 => Row256F();
    case 6 => Row256G();
    case 7 => Row256H();
  }

  lemma Row512(r: nat)
    requires r < 10
    ensures forall i: nat | i < 8 :: CubeRootWord(K512[r][i], PRIMES[r][i], WORD64)
  {
    hide CubeRootWord;
    match r
    case 0 => Row512A();
    case 1 => Row512B();
    case 2 => Row512C();
    case 3 => Row512D();
    case 4 => Row512E();
    case 5 => Row512F();
    case 6 => Row512G();
    case 7 => Row512H();
    case 8 => Row512I();
    case 9 => Row512J();
  }

  /** There is one round constant for each round, the first word of the fraction of the cube root of the next prime. */
  lemma RoundConstants(t: nat)
    ensures RoundCount(Sha256) == 64 && RoundCount(Sha512) == 80
    ensures t < 64 ==> CubeRootWord(K(Sha256, t), PRIMES[t / 8][t % 8], 0x1_0000_0000)
    ensures t < 80 ==> CubeRootWord(K(Sha512, t), PRIMES[t / 8][t % 8], 0x1_0000_0000_0000_0000)
  {
    hide CubeRootWord, K256, K512, PRIMES;
    var i := t % 8;
    if t < 64 { Row256(t / 8); }
    if t < 80 { Row512(t / 8); }
  }

  /** The words of a chaining value. */
  function Listed(r: Regs): seq<Word> { [r.a, r.b, r.c, r.d, r.e, r.f, r.g, r.h] }

  /** SHA-256 starts from the square roots of the first eight primes. */
  lemma Initial256()
    ensures forall i: nat | i < 8 :: SquareRootWord(Listed(Init256())[i], PRIMES[0][i], WORD32)
  {
    hide SquareRootWord;
    FromSquare(1, 0x6a09e667, 2, WORD32);
    FromSquare(1, 0xbb67ae85, 3, WORD32);
    FromSquare(2, 0x3c6ef372, 5, WORD32);
    FromSquare(2, 0xa54ff53a, 7, WORD32);
    FromSquare(3, 0x510e527f, 11, WORD32);
    FromSquare(3, 0x9b05688c, 13, WORD32);
    FromSquare(4, 0x1f83d9ab, 17, WORD32);
    FromSquare(4, 0x5be0cd19, 19, WORD32);
  }

  /** SHA-512 starts from 64 bits of the same roots. */
  lemma Initial512()
    ensures forall i: nat | i < 8 :: SquareRootWord(Listed(Init512())[i], PRIMES[0][i], WORD64)
  {
    hide SquareRootWord;
    FromSquare(1, 0x6a09e667f3bcc908, 2, WORD64);
    FromSquare(1, 0xbb67ae8584caa73b, 3, WORD64);
    FromSquare(2, 0x3c6ef372fe94f82b, 5, WORD64);
    FromSquare(2, 0xa54ff53a5f1d36f1, 7, WORD64);
    FromSquare(3, 0x510e527fade682d1, 11, WORD64);
    FromSquare(3, 0x9b05688c2b3e6c1f, 13, WORD64);
    FromSquare(4, 0x1f83d9abfb41bd6b, 17, WORD64);
    FromSquare(4, 0x5be0cd19137e2179, 19, WORD64);
  }

  /** SHA-384 starts from the square roots of the next eight primes. */
  lemma Initial384()
    ensures forall i: nat | i < 8 :: SquareRootWord(Listed(Init384())[i], PRIMES[1][i], WORD64)
  {
    hide SquareRootWord;
    FromSquare(4, 0xcbbb9d5dc1059ed8, 23, WORD64);
    FromSquare(5, 0x629a292a367cd507, 29, WORD64);
    FromSquare(5, 0x9159015a3070dd17, 31, WORD64);
    FromSquare(6, 0x152fecd8f70e5939, 37, WORD64);
    FromSquare(6, 0x67332667ffc00b31, 41, WORD64);
    FromSquare(6, 0x8eb44a8768581511, 43, WORD64);
    FromSquare(6, 0xdb0c2e0d64f98fa7, 47, WORD64);
    FromSquare(7, 0x47b5481dbefa4fa4, 53, WORD64);
  }

  /** SHA-224 starts from the second 32 bits of those. */
  lemma Initial224()
    ensures var r, full := Init224(), Init384();
            && r.a == full.a % 0x1_0000_0000 && r.b == full.b % 0x1_0000_0000
            && r.c == full.c % 0x1_0000_0000 && r.d == full.d % 0x1_0000_0000
            && r.e == full.e % 0x1_0000_0000 && r.f == full.f % 0x1_0000_0000
            && r.g == full.g % 0x1_0000_0000 && r.h == full.h % 0x1_0000_0000
  {
  }

  /** Word i of the digest is register i. */
  lemma DigestWords(s: Suite, r: Regs, i: nat)
    requires i < 8
    ensures var k := WordBytes(s);
            FromBytes(FlatRegs(s, r)[i * k..(i + 1) * k]) == Listed(r)[i] % Pow256(k)
  {
    hide ToBytes, FromBytes, Pow256;
    DigestSlices(s, r, i);
    LoadAfterStore(Listed(r)[i], WordBytes(s));
  }

  lemma DigestSlices(s: Suite, r: Regs, i: nat)
    requires i < 8
    ensures var k := WordBytes(s); FlatRegs(s, r)[i * k..(i + 1) * k] == ToBytes(Listed(r)[i], k)
  {
    hide ToBytes;
  }

  // ---- Word functions ----

  /** Ch takes the bits of y where x has ones and those of z where it has zeros. */
  lemma ChooseBits32(x: bv32, y: bv32, z: bv32)
    ensures Choose32(x, y, z) & x == y & x && Choose32(x, y, z) & !x == z & !x
  {
  }

  lemma ChooseBits64(x: bv64, y: bv64, z: bv64)
    ensures Choose64(x, y, z) & x == y & x && Choose64(x, y, z) & !x == z & !x
  {
  }

  /** Where x and y agree Maj agrees with them; and so for any two, as turning the three around changes nothing. */
  lemma MajorityBits32(x: bv32, y: bv32, z: bv32)
    ensures Majority32(x, y, z) & (x & y) == x & y
    ensures Majority32(x, y, z) & !(x | y) == 0
  {
  }

  lemma MajorityTurns32(x: bv32, y: bv32, z: bv32)
    ensures Majority32(x, y, z) == Majority32(y, z, x)
  {
  }

  lemma MajorityBits64(x: bv64, y: bv64, z: bv64)
    ensures Majority64(x, y, z) & (x & y) == x & y
    ensures Majority64(x, y, z) & !(x | y) == 0
  {
  }

  lemma MajorityTurns64(x: bv64, y: bv64, z: bv64)
    ensures Majority64(x, y, z) == Majority64(y, z, x)
  {
  }

  /** Rotating back by the rest of the word. */
  function Rotl64(x: bv64, n: nat): bv64
    requires n <= 64
  {
    (x << n) | (x >> (64 - n))
  }

  lemma RightIsLeft(x: bv64, n: nat)
    requires n <= 64
    ensures Rotr64(x, n) == Rotl64(x, 64 - n)
  {
  }

  /** The right rotations of the 64-bit functions, as left rotations by the rest of the word. */
  lemma LeftRotations512(v: bv64)
    ensures Sum0Wide(v) == Xor64(Rotl64(v, 36), Rotl64(v, 30), Rotl64(v, 25))
    ensures Sum1Wide(v) == Xor64(Rotl64(v, 50), Rotl64(v, 46), Rotl64(v, 23))
    ensures Sig0Wide(v) == Xor64(Rotl64(v, 63), Rotl64(v, 56), v >> 7)
    ensures Sig1Wide(v) == Xor64(Rotl64(v, 45), Rotl64(v, 3), v >> 6)
  {
    hide Rotr64, Rotl64, Xor64;
    RightIsLeft(v, 28);
    RightIsLeft(v, 34);
    RightIsLeft(v, 39);
    RightIsLeft(v, 14);
    RightIsLeft(v, 18);
    RightIsLeft(v, 41);
    RightIsLeft(v, 1);
    RightIsLeft(v, 8);
    RightIsLeft(v, 19);
    RightIsLeft(v, 61);
  }
}
