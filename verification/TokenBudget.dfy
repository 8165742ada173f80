/** How many tokens a text may have, so that the attention scratch of any
    forward pass stays within the memory budget of the machine. */
module TokenBudget {
  import opened FlatIndex

  const MAX_SEQ_LEN: nat := 40960
  const EMBED_BATCH_SIZE: nat := 8
  const BATCH_MAX_SEQ: nat := 512
  const N_HEAD: nat := 16

  const GIB: nat := 1024 * 1024 * 1024
  const SINGLE_CHUNK_BUDGET_SMALL: nat := 2 * GIB
  const SINGLE_CHUNK_BUDGET_LARGE: nat := 4 * GIB
  const LARGE_RAM_THRESHOLD: nat := 16 * GIB

  function SingleChunkBudget(totalRamBytes: nat): nat {
    if totalRamBytes > LARGE_RAM_THRESHOLD then SINGLE_CHUNK_BUDGET_LARGE else SINGLE_CHUNK_BUDGET_SMALL
  }

  /** The largest number whose square is at most `n`. */
  function ISqrt(n: nat): nat {
    if n == 0 then 0
    else
      var r := ISqrt(n - 1);
      if (r + 1) * (r + 1) <= n then r + 1 else r
  }

  lemma {:induction false} ISqrtBounds(n: nat)
    ensures ISqrt(n) * ISqrt(n) <= n < (ISqrt(n) + 1) * (ISqrt(n) + 1)
  {
    if n > 0 {
      ISqrtBounds(n - 1);
      var r := ISqrt(n - 1);
      assert (r + 2) * (r + 2) == (r + 1) * (r + 1) + 2 * r + 3;
    }
  }

  function Quotient(n: nat, d: nat): nat
    requires d > 0
  {
    n / d
  }

  function Clamp(x: nat, lo: nat, hi: nat): nat
    requires lo <= hi
  {
    if x < lo then lo else if x > hi then hi else x
  }

  function BytesPerSquare(nHead: nat): (r: nat)
    requires nHead > 0
    ensures r > 0
  {
    nHead * 4
  }

  function DeriveTokenCap(budgetBytes: nat, nHead: nat): nat
    requires nHead > 0
  {
    Clamp(ISqrt(Quotient(budgetBytes, BytesPerSquare(nHead))), 1, MAX_SEQ_LEN)
  }

  /** A cap of 0 stands for no cap beyond the model's own. */
  function EffectiveTokenCap(tokenCap: nat): nat {
    if tokenCap == 0 then MAX_SEQ_LEN else if tokenCap < MAX_SEQ_LEN then tokenCap else MAX_SEQ_LEN
  }

  /** Bytes of the attention scores of `b` sequences of `n` tokens. */
  function Scratch(b: nat, nHead: nat, n: nat): nat { b * nHead * (n * n) * 4 }

  lemma SquareMonotone(a: nat, b: nat)
    requires a <= b
    ensures a * a <= b * b
  {
    assert a * a <= a * b <= b * b;
  }

  lemma WithinRoot(n: nat, s: nat)
    ensures s * s <= n <==> s <= ISqrt(n)
  {
    ISqrtBounds(n);
    var r := ISqrt(n);
    if s <= r {
      SquareMonotone(s, r);
    } else {
      SquareMonotone(r + 1, s);
    }
  }

  lemma WithinQuotient(x: nat, n: nat, d: nat)
    requires d > 0
    ensures x * d <= n <==> x <= Quotient(n, d)
  {
    var q := n / d;
    assert n == q * d + n % d;
    if x <= q {
      Distribute(q, x, d);
      assert (q - x) * d >= 0;
    } else {
      Distribute(x, q, d);
      MultipleAtLeast(x - q, d);
    }
  }

  /** The cap is exact: of the lengths the model can take, those up to the cap
      are the ones whose scores fit the budget, four bytes a head and a pair of
      tokens. Only a single token is let through whatever the budget. */
  lemma TokenCapExact(budget: nat, nHead: nat, s: nat)
    requires nHead > 0
    ensures 1 <= DeriveTokenCap(budget, nHead) <= 40960
    ensures 1 < s <= 40960 ==> (s <= DeriveTokenCap(budget, nHead) <==> 1 * nHead * (s * s) * 4 <= budget)
  {
    var d := BytesPerSquare(nHead);
    ScratchOfOne(nHead, s);
    assert Scratch(1, nHead, s) == 1 * nHead * (s * s) * 4;
    hide Scratch, BytesPerSquare, ISqrt, Quotient;
    WithinQuotient(s * s, budget, d);
    WithinRoot(Quotient(budget, d), s);
  }

  /** The caps of the two budgets. */
  lemma LoadedCaps()
    ensures DeriveTokenCap(SingleChunkBudget(17179869184), 16) == 5792
    ensures DeriveTokenCap(SingleChunkBudget(17179869185), 16) == 8192
  {
    TokenCapExact(2147483648, 16, 5792);
    TokenCapExact(2147483648, 16, 5793);
    TokenCapExact(4294967296, 16, 8192);
    TokenCapExact(4294967296, 16, 8193);
    hide DeriveTokenCap;
  }

  lemma ScratchOfOne(nHead: nat, s: nat)
    requires nHead > 0
    ensures Scratch(1, nHead, s) == s * s * BytesPerSquare(nHead)
  {
    var q := s * s;
    assert 1 * nHead * q * 4 == q * (nHead * 4);
  }

  /** A forward pass: how many sequences, and how long the longest is. */
  datatype Pass = Pass(b: nat, n: nat)

  /** What the embedder can start: one capped sequence, or a small batch. */
  predicate PassOk(tokenCap: nat, p: Pass) {
    0 < p.n && ((p.b == 1 && p.n <= (if tokenCap == 0 || tokenCap > 40960 then 40960 else tokenCap))
                || (0 < p.b <= 8 && p.n <= 512))
  }

  /** On a loaded embedder no pass outgrows the budget picked from the RAM. */
  lemma PassWithinBudget(totalRamBytes: nat, p: Pass)
    requires PassOk(DeriveTokenCap(SingleChunkBudget(totalRamBytes), N_HEAD), p)
    ensures p.b * 16 * (p.n * p.n) * 4 <= if totalRamBytes > 16 * 1073741824 then 4 * 1073741824 else 2 * 1073741824
  {
    var budget := SingleChunkBudget(totalRamBytes);
    if p.b == 1 && p.n <= EffectiveTokenCap(DeriveTokenCap(budget, N_HEAD)) {
      TokenCapExact(budget, N_HEAD, p.n);
    } else {
      SquareMonotone(p.n, BATCH_MAX_SEQ);
      var q := p.n * p.n;
      assert (p.b * N_HEAD) * (512 * 512 - q) >= 0;
      assert Scratch(p.b, N_HEAD, p.n) <= 8 * 16 * (512 * 512) * 4;
    }
  }
}
