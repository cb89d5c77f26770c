/** Physical memory as bytes, the little-endian quad-words the kernel reads and writes in it,
    and the bitwise OR that combines an address with page flags. */
module Memory {

  type Byte = b: nat | b < 256

  /** A byte that was never written reads as zero. */
  type Mem = map<nat, Byte>

  datatype Option<T> = None | Some(value: T)

  const WORD_LIMIT: nat := 0x1_0000_0000_0000_0000
  const DWORD: nat := 0x1_0000_0000

  function Rd8(m: Mem, a: nat): Byte {
    if a in m then m[a] else 0
  }

  function Pow256(k: nat): nat {
    if k == 0 then 1 else 256 * Pow256(k - 1)
  }

  /** The `k` bytes at `a`, read as a little-endian number. */
  function RdLe(m: Mem, a: nat, k: nat): nat
    decreases k
  {
    if k == 0 then 0 else Rd8(m, a) + 256 * RdLe(m, a + 1, k - 1)
  }

  function WrLe(m: Mem, a: nat, k: nat, w: nat): Mem
    decreases k
  {
    if k == 0 then m else WrLe(m, a + 1, k - 1, w / 256)[a := w % 256]
  }

  /** Eight; a function so that the verifier does not unroll every word into bytes. */
  function WordBytes(m: Mem): nat {
    8
  }

  function Rd64(m: Mem, a: nat): nat {
    RdLe(m, a, WordBytes(m))
  }

  function Wr64(m: Mem, a: nat, w: nat): Mem {
    WrLe(m, a, WordBytes(m), w)
  }

  /** `memset(a, 0, n)` on physical memory. */
  function Zero(m: Mem, a: nat, n: nat): Mem {
    if n == 0 then m else Zero(m, a, n - 1)[a + n - 1 := 0]
  }

  lemma {:induction false} ZeroBytes(m: Mem, a: nat, n: nat)
    ensures forall x: nat :: Rd8(Zero(m, a, n), x) == if a <= x < a + n then 0 else Rd8(m, x)
  {
    if n > 0 {
      ZeroBytes(m, a, n - 1);
      var rest := Zero(m, a, n - 1);
      assert Zero(m, a, n) == rest[a + n - 1 := 0];
      forall x: nat ensures Rd8(Zero(m, a, n), x) == if a <= x < a + n then 0 else Rd8(m, x) {
        assert x != a + n - 1 ==> Rd8(rest[a + n - 1 := 0], x) == Rd8(rest, x);
      }
    }
  }

  lemma {:induction false} WrLeBytes(m: Mem, a: nat, k: nat, w: nat)
    ensures forall x: nat :: !(a <= x < a + k) ==> Rd8(WrLe(m, a, k, w), x) == Rd8(m, x)
    decreases k
  {
    if k > 0 {
      WrLeBytes(m, a + 1, k - 1, w / 256);
    }
  }

  lemma {:induction false} RdLeSame(m: Mem, m': Mem, a: nat, k: nat)
    requires forall x :: a <= x < a + k ==> Rd8(m, x) == Rd8(m', x)
    ensures RdLe(m, a, k) == RdLe(m', a, k)
    decreases k
  {
    if k > 0 {
      RdLeSame(m, m', a + 1, k - 1);
    }
  }

  lemma {:induction false} RdLeBound(m: Mem, a: nat, k: nat)
    ensures RdLe(m, a, k) < Pow256(k)
    decreases k
  {
    if k > 0 {
      RdLeBound(m, a + 1, k - 1);
    }
  }

  /** What is written as a little-endian number reads back, if it fits. */
  lemma {:induction false} RdWrLe(m: Mem, a: nat, k: nat, w: nat)
    requires w < Pow256(k)
    ensures RdLe(WrLe(m, a, k, w), a, k) == w
    decreases k
  {
    if k > 0 {
      var inner := WrLe(m, a + 1, k - 1, w / 256);
      RdWrLe(m, a + 1, k - 1, w / 256);
      RdLeSame(inner, inner[a := w % 256], a + 1, k - 1);
    }
  }

  lemma RdWr64(m: Mem, a: nat, w: nat)
    requires w < WORD_LIMIT
    ensures Rd64(Wr64(m, a, w), a) == w
  {
    assert Pow256(4) == 0x1_0000_0000;
    assert Pow256(8) == WORD_LIMIT;
    RdWrLe(m, a, 8, w);
  }

  lemma {:induction false} RdLeZero(m: Mem, a: nat, k: nat)
    requires forall x :: a <= x < a + k ==> Rd8(m, x) == 0
    ensures RdLe(m, a, k) == 0
    decreases k
  {
    if k > 0 {
      RdLeZero(m, a + 1, k - 1);
    }
  }

  /** `a | b` on unsigned words. */
  function BitOr(a: nat, b: nat): (r: nat)
    ensures r >= a && r >= b
    decreases a + b
  {
    if a == 0 then b
    else if b == 0 then a
    else 2 * BitOr(a / 2, b / 2) + (if a % 2 == 1 || b % 2 == 1 then 1 else 0)
  }

  function Pow2(k: nat): (r: nat)
    ensures r > 0
  {
    if k == 0 then 1 else 2 * Pow2(k - 1)
  }

  /** OR with bits below an alignment boundary is addition. */
  lemma {:induction false} BitOrAligned(q: nat, b: nat, k: nat)
    requires b < Pow2(k)
    ensures BitOr(q * Pow2(k), b) == q * Pow2(k) + b
  {
    if k > 0 && q > 0 && b > 0 {
      var p := Pow2(k - 1);
      assert q * Pow2(k) == 2 * (q * p);
      BitOrAligned(q, b / 2, k - 1);
    } else if k > 0 {
      assert q == 0 ==> q * Pow2(k) == 0;
    }
  }

  /** OR stays inside the word. */
  lemma {:induction false} BitOrBound(a: nat, b: nat, k: nat)
    requires a < Pow2(k) && b < Pow2(k)
    ensures BitOr(a, b) < Pow2(k)
    decreases k
  {
    if k > 0 && a > 0 && b > 0 {
      BitOrBound(a / 2, b / 2, k - 1);
    }
  }

  /** Stated over a variable so that the verifier does not unroll 64 levels. */
  lemma Pow2Word(k: nat)
    requires k == 16
    ensures Pow2(k + k + k + k) == WORD_LIMIT
  {
    assert Pow2(8) == 256;
    Pow2Add(8, 8);
    Pow2Add(k, k);
    Pow2Add(k + k, k);
    Pow2Add(k + k + k, k);
  }

  lemma {:induction false} Pow2Add(a: nat, b: nat)
    ensures Pow2(a + b) == Pow2(a) * Pow2(b)
  {
    if a > 0 {
      Pow2Add(a - 1, b);
      assert Pow2(a + b) == 2 * Pow2(a - 1 + b);
    }
  }

  /** An aligned address OR flags is their sum. */
  lemma OrFlags(frame: nat, flags: nat)
    requires flags < 4096 && frame * 4096 < WORD_LIMIT
    ensures BitOr(frame * 4096, flags) == frame * 4096 + flags < WORD_LIMIT
  {
    assert Pow2(12) == 4096;
    BitOrAligned(frame, flags, 12);
  }

  /** The OR of two quad-words is a quad-word. */
  lemma OrWord(a: nat, b: nat)
    requires a < WORD_LIMIT && b < WORD_LIMIT
    ensures BitOr(a, b) < WORD_LIMIT
  {
    var k := 16;
    Pow2Word(k);
    BitOrBound(a, b, k + k + k + k);
  }
}
