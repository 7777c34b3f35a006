/** The generator object of matRandom.cpp: 624 words refreshed in place, then handed out one by one. */
module MatRandom {
  import opened MersenneRecurrence

  class Generator {
    const m_state: array<bv32>
    /** Index of the next word to hand out. */
    var m_pNext: nat
    var m_nLeft: nat

    /** The state at seeding, and how many words have been generated since. */
    ghost var start: seq<bv32>
    ghost var calls: nat

    /** The state holds 624 words of the recurrence in a row. */
    ghost predicate Valid()
      reads this, m_state
    {
      && m_state.Length == N && |start| == N && m_nLeft <= N
      && (m_nLeft > 0 ==> m_pNext == N - m_nLeft && calls + m_nLeft >= N)
      && forall i :: 0 <= i < N ==> m_state[i] == X(start, calls + m_nLeft + i)
    }

    constructor ()
      ensures Valid() && start == SeedState(4357) && calls == 0
    {
      m_state := new bv32[N];
      m_pNext := 0;
      m_nLeft := 0;
      new;
      Seed(4357);
    }

    method Seed(seed: bv32)
      requires m_state.Length == N
      modifies this, m_state
      ensures Valid() && start == SeedState(seed) && calls == 0
    {
      hide SeedStep;
      var x := seed | 1;
      for i := 0 to N
        invariant x == SeedWord(seed, i)
        invariant forall k :: 0 <= k < i ==> m_state[k] == SeedWord(seed, k)
      {
        m_state[i] := x;
        x := SeedStep(x);
      }
      m_nLeft := 0;
      start, calls := SeedState(seed), 0;
    }

    /** The three loops of `Generate`: each word is rebuilt from a mix of words not yet rebuilt and
        words already rebuilt, and the state moves on by 624 places of the recurrence. */
    method Reload()
      requires Valid() && m_nLeft == 0
      modifies m_state
      ensures forall i :: 0 <= i < N ==> m_state[i] == X(start, calls + N + i)
    {
      hide Next, X;
      ghost var b := calls;
      var kk := 0;
      while kk < N - M
        invariant kk <= N - M
        invariant forall i :: 0 <= i < kk ==> m_state[i] == X(start, b + N + i)
        invariant forall i :: kk <= i < N ==> m_state[i] == X(start, b + i)
      {
        Rebuilt(start, b + kk);
        m_state[kk] := Next(m_state[kk], m_state[kk + 1], m_state[kk + M]);
        kk := kk + 1;
      }
      while kk < N - 1
        invariant N - M <= kk <= N - 1
        invariant forall i :: 0 <= i < kk ==> m_state[i] == X(start, b + N + i)
        invariant forall i :: kk <= i < N ==> m_state[i] == X(start, b + i)
      {
        Rebuilt(start, b + kk);
        m_state[kk] := Next(m_state[kk], m_state[kk + 1], m_state[kk + M - N]);
        kk := kk + 1;
      }
      Rebuilt(start, b + N - 1);
      m_state[N - 1] := Next(m_state[N - 1], m_state[0], m_state[M - 1]);
    }

    /** For every call number n after any seed: the word returned is word 624 + n of the
        recurrence, tempered. */
    method Generate() returns (y: bv32)
      requires Valid()
      modifies this, m_state
      ensures Valid() && start == old(start) && calls == old(calls) + 1
      ensures y == Temper(X(start, N + old(calls)))
    {
      hide Next, StepU, StepS, StepT, StepL;
      if m_nLeft == 0 {
        Reload();
        m_nLeft := N;
        m_pNext := 0;
      }
      m_nLeft := m_nLeft - 1;
      y := m_state[m_pNext];
      m_pNext := m_pNext + 1;
      calls := calls + 1;
      y := Temper(y);
    }

    /** Range(max): the top 32 bits of a 64-bit product, by an arithmetic shift. */
    method Range(iMax: int) returns (r: int)
      requires Valid() && -0x8000_0000 <= iMax < 0x8000_0000
      modifies this, m_state
      ensures Valid() && start == old(start) && calls == old(calls) + 1
      ensures r == Scaled(Temper(X(start, N + old(calls))) as int, iMax)
      ensures iMax > 0 ==> 0 <= r < iMax
      ensures iMax <= 0 ==> iMax <= r <= 0
    {
      var y := Generate();
      r := Scaled(y as int, iMax);
      ScaledInRange(y as int, iMax);
    }

    /** Range(min, max): only defined when the width fits in 32 bits. */
    method RangeBetween(iMin: int, iMax: int) returns (r: int)
      requires Valid() && -0x8000_0000 <= iMin < 0x8000_0000 && -0x8000_0000 <= iMax < 0x8000_0000
      requires -0x8000_0000 <= iMax - iMin < 0x8000_0000
      modifies this, m_state
      ensures Valid() && start == old(start) && calls == old(calls) + 1
      ensures r == iMin + Scaled(Temper(X(start, N + old(calls))) as int, iMax - iMin)
      ensures iMin < iMax ==> iMin <= r < iMax
      ensures iMax <= iMin ==> iMax <= r <= iMin
    {
      var y := Generate();
      r := iMin + Scaled(y as int, iMax - iMin);
      ScaledInRange(y as int, iMax - iMin);
    }
  }

  lemma Rebuilt(start: seq<bv32>, k: nat)
    requires |start| == N
    ensures X(start, k + N) == Next(X(start, k), X(start, k + 1), X(start, k + M))
  {
    hide Next;
  }

  /** `(int64)y * n >> 32`: rounding down, also for negative n. */
  function Scaled(y: int, n: int): int {
    y * n / 0x1_0000_0000
  }

  lemma ScaledInRange(y: int, n: int)
    requires 0 <= y < 0x1_0000_0000
    ensures n > 0 ==> 0 <= Scaled(y, n) < n
    ensures n == 0 ==> Scaled(y, n) == 0
    ensures n < 0 ==> n <= Scaled(y, n) <= 0
  {
    var W := 0x1_0000_0000;
    if n > 0 {
      Products(y, W, n);
      QuotientInRange(y * n, W, n);
    } else if n < 0 {
      Products(y, W, -n);
      assert y * n == -(y * -n);
      NegativeQuotientInRange(y * n, W, -n);
    }
  }

  lemma Products(y: int, w: int, n: int)
    requires 0 <= y < w && 0 < n
    ensures 0 <= y * n < w * n
  {
    assert (w - y) * n > 0;
  }

  lemma QuotientInRange(p: int, w: int, n: int)
    requires 0 <= p < w * n && 0 < w
    ensures 0 <= p / w < n
  {
    var q := p / w;
    assert q * w <= p < q * w + w;
    assert q >= n ==> q * w >= n * w;
  }

  lemma NegativeQuotientInRange(p: int, w: int, n: int)
    requires -(w * n) < p <= 0 && 0 < w
    ensures -n <= p / w <= 0
  {
    var q := p / w;
    assert q * w <= p < q * w + w;
    assert q + 1 <= -n ==> (q + 1) * w <= -n * w;
  }

  // ----- Range is as even as 32 bits allow

  /** The least y that is scaled to r or more: the ceiling of r * 2^32 / n. */
  function First(r: nat, n: nat): (y: nat)
    requires n > 0
  {
    (r * 0x1_0000_0000 + n - 1) / n
  }

  lemma Ceiling(a: nat, n: nat, y: int)
    requires n > 0
    ensures (a + n - 1) / n <= y <==> a <= y * n
  {
    var q := (a + n - 1) / n;
    assert q * n <= a + n - 1 < q * n + n;
    if q <= y {
      assert q * n <= y * n;
    } else {
      assert y * n <= (q - 1) * n == q * n - n;
    }
  }

  /** Exactly the words from First(r) up to First(r + 1) give r, and the number of such words for
      any two results differs by at most one. */
  lemma RangeIsEven(r: nat, r': nat, n: nat, y: nat)
    requires 0 < n && r < n && r' < n
    ensures Scaled(y, n) == r <==> First(r, n) <= y < First(r + 1, n)
    ensures -1 <= (First(r + 1, n) - First(r, n)) - (First(r' + 1, n) - First(r', n)) <= 1
  {
    var W := 0x1_0000_0000;
    Ceiling(r * W, n, y);
    Ceiling((r + 1) * W, n, y);
    FibreSize(r, n);
    FibreSize(r', n);
  }

  lemma FibreSize(r: nat, n: nat)
    requires n > 0
    ensures 0x1_0000_0000 / n <= First(r + 1, n) - First(r, n) <= 0x1_0000_0000 / n + 1
  {
    var W, a := 0x1_0000_0000, r * 0x1_0000_0000 + n - 1;
    var f, g, w := First(r, n), First(r + 1, n), W / n;
    assert (r + 1) * W + n - 1 == a + W;
    assert f * n <= a < f * n + n;
    assert g * n <= a + W < g * n + n;
    assert w * n <= W < w * n + n;
    Between(g - f - w, n);
  }

  lemma Between(d: int, n: int)
    requires n > 0 && -n < d * n < 2 * n
    ensures 0 <= d <= 1
  {
    assert d <= -1 ==> d * n <= -1 * n;
    assert d >= 2 ==> d * n >= 2 * n;
  }
}
