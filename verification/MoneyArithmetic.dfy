/** Overflow-checked addition and the division of an amount into shares. */
module MoneyArithmetic {
  import opened Wrappers
  import opened MachineInt

  datatype Overflow = Overflow

  /** The guards are evaluated in int64, where MAX - b and MIN - b cannot wrap for the sign they test. */
  function Add(a: Int64, b: Int64): (r: Result<Int64, Overflow>)
    ensures r == if Fits(a + b) then Ok(a + b) else Err(Overflow.Overflow)
  {
    if b > 0 && a > Wrap(MAX_INT64 - b) then Err(Overflow.Overflow)
    else if b < 0 && a < Wrap(MIN_INT64 - b) then Err(Overflow.Overflow)
    else Ok(Wrap(a + b))
  }

  function Sub(a: Int64, b: Int64): Result<Int64, Overflow> {
    Add(a, Wrap(0 - b))
  }

  /** What checked subtraction is for. */
  function Difference(a: Int64, b: Int64): Result<Int64, Overflow> {
    if Fits(a - b) then Ok(a - b) else Err(Overflow.Overflow)
  }

  /** Sub is checked subtraction exactly when b is not the least int64, whose negation wraps:
      then it is wrong for every a. */
  lemma SubIsDifference(a: Int64, b: Int64)
    ensures Sub(a, b) == Difference(a, b) <==> b != MIN_INT64
  {
    if b == MIN_INT64 {
      assert Wrap(0 - b) == MIN_INT64;
    }
  }

  // ---------- Split ----------

  function Sum(s: seq<int>): int {
    if s == [] then 0 else Sum(s[..|s| - 1]) + s[|s| - 1]
  }

  /** k shares of q + 1 followed by n - k shares of q. */
  function Level(q: int, k: int, n: nat): (s: seq<int>)
    ensures |s| == n && forall i | 0 <= i < n :: s[i] == if i < k then q + 1 else q
  {
    seq(n, i => if i < k then q + 1 else q)
  }

  lemma {:induction false} SumOfLevel(q: int, k: int, n: nat)
    requires k <= n
    ensures Sum(Level(q, k, n)) == n * q + if k < 0 then 0 else k
  {
    if n > 0 {
      assert Level(q, k, n)[..n - 1] == Level(q, if k == n then n - 1 else k, n - 1);
      SumOfLevel(q, if k == n then n - 1 else k, n - 1);
    }
  }

  /** The specification of Split: a negative remainder adds nothing to any share. */
  function Shares(amount: Int64, n: Int64): seq<int>
    requires n >= 1
  {
    Level(Quotient(amount, n), Remainder(amount, n), n)
  }

  method Split(amount: Int64, n: Int64) returns (parts: array<Int64>)
    requires n >= 1
    ensures fresh(parts) && parts.Length == n
    ensures parts[..] == Shares(amount, n)
  {
    SharesFit(amount, n);
    var base, remainder := Quotient(amount, n), Remainder(amount, n);
    parts := new Int64[n](_ => 0);
    for i := 0 to n
      invariant forall k | 0 <= k < i :: parts[k] == base
    {
      parts[i] := base;
    }
    var i := 0;
    while i < remainder
      invariant 0 <= i <= n && (remainder >= 0 ==> i <= remainder) && (remainder < 0 ==> i == 0)
      invariant forall k | 0 <= k < n :: parts[k] == if k < i then base + 1 else base
    {
      parts[i] := parts[i] + 1;
      i := i + 1;
    }
  }

  /** Division with remainder on the naturals. */
  lemma NatDivision(m: nat, n: nat)
    requires n >= 1
    ensures m == n * (m / n) + m % n && 0 <= m % n < n && 0 <= m / n <= m
  {
    var q := m / n;
    if q > m {
      MulAtLeast(n, q);
    }
  }

  lemma MulAtLeast(n: nat, x: int)
    requires n >= 1 && x >= 0
    ensures x <= n * x
    ensures x >= 1 ==> n <= n * x
  {
  }

  lemma QuotientRemainder(amount: int, n: int)
    requires n >= 1
    ensures n * Quotient(amount, n) + Remainder(amount, n) == amount
    ensures -n < Remainder(amount, n) < n
    ensures amount >= 0 ==> 0 <= Quotient(amount, n) <= amount && 0 <= Remainder(amount, n)
    ensures amount < 0 ==> amount <= Quotient(amount, n) <= 0 && Remainder(amount, n) <= 0
  {
    var m := if amount >= 0 then amount else -amount;
    NatDivision(m, n);
    assert amount < 0 ==> n * -(m / n) == -(n * (m / n));
  }

  /** Incrementing the first shares never leaves int64. */
  lemma SharesFit(amount: Int64, n: Int64)
    requires n >= 1
    ensures Fits(Quotient(amount, n)) && -n < Remainder(amount, n) < n
    ensures Remainder(amount, n) > 0 ==> Fits(Quotient(amount, n) + 1)
  {
    QuotientRemainder(amount, n);
    if Remainder(amount, n) > 0 {
      MulAtLeast(n, Quotient(amount, n));
    }
  }

  /** The shares add up to the amount exactly when it is not negative or divides evenly;
      a negative amount with a remainder loses that remainder. */
  lemma SharesAreExact(amount: Int64, n: Int64)
    requires n >= 1
    ensures Sum(Shares(amount, n)) == amount <==> amount >= 0 || Remainder(amount, n) == 0
    ensures Sum(Shares(amount, n)) - amount == if amount >= 0 then 0 else -Remainder(amount, n)
  {
    QuotientRemainder(amount, n);
    SumOfLevel(Quotient(amount, n), Remainder(amount, n), n);
  }

  /** The shares of a negative amount are all equal: the amount over n, rounded towards zero. */
  lemma NegativeSharesAreEqual(amount: Int64, n: Int64)
    requires n >= 1 && amount < 0
    ensures exists q: int :: Shares(amount, n) == Level(q, 0, n) && amount <= n * q < amount + n
  {
    QuotientRemainder(amount, n);
    assert Shares(amount, n) == Level(Quotient(amount, n), 0, n);
  }

  /** Splitting -1 in two gives two shares of 0. */
  lemma NegativeSplitLosesRemainder()
    ensures Shares(-1, 2) == [0, 0] && Sum(Shares(-1, 2)) == 0
  {
    assert Shares(-1, 2)[..1] == [0] && Shares(-1, 2)[..1][..0] == [];
  }

  /** Non-increasing shares that differ by at most one. */
  predicate Even(s: seq<int>) {
    forall i, j | 0 <= i <= j < |s| :: s[j] <= s[i] <= s[j] + 1
  }

  lemma {:induction false} EvenIsLevel(s: seq<int>) returns (k: nat)
    requires s != [] && Even(s)
    ensures k < |s| && s == Level(s[|s| - 1], k, |s|)
  {
    var last := s[|s| - 1];
    k := 0;
    while k < |s| && s[k] == last + 1
      invariant 0 <= k <= |s| && forall i | 0 <= i < k :: s[i] == last + 1
    {
      k := k + 1;
    }
    assert s[k] <= last;
  }

  /** Euclid: a number has one quotient and one remainder. */
  lemma SameDivision(q: int, k: int, p: int, j: int, n: nat)
    requires n * q + k == n * p + j && 0 <= k < n && 0 <= j < n
    ensures q == p && k == j
  {
    if q < p {
      MulAtLeast(n, p - q);
    } else if p < q {
      MulAtLeast(n, q - p);
    }
  }

  /** For a non-negative amount the shares are the only even division of it into n parts. */
  lemma OnlyEvenDivision(amount: Int64, n: Int64, s: seq<int>)
    requires n >= 1 && amount >= 0
    ensures (|s| == n && Even(s) && Sum(s) == amount) <==> s == Shares(amount, n)
  {
    QuotientRemainder(amount, n);
    SharesAreExact(amount, n);
    if |s| == n && Even(s) && Sum(s) == amount {
      var k := EvenIsLevel(s);
      SumOfLevel(s[n - 1], k, n);
      SameDivision(s[n - 1], k, Quotient(amount, n), Remainder(amount, n), n);
    }
  }

  /** Folding the checked Add from the left. */
  function AddAll(s: seq<Int64>): Result<Int64, Overflow> {
    if s == [] then Ok(0)
    else match AddAll(s[..|s| - 1])
      case Err(e) => Err(e)
      case Ok(t) => Add(t, s[|s| - 1])
  }

  lemma {:induction false} AddAllOfPrefix(s: seq<Int64>)
    requires (forall i | 0 <= i < |s| :: s[i] >= 0) && Sum(s) <= MAX_INT64
    ensures AddAll(s) == Ok(Sum(s)) && Sum(s) >= 0
  {
    if s != [] {
      var p := s[..|s| - 1];
      SumNonNegative(p);
      AddAllOfPrefix(p);
    }
  }

  lemma {:induction false} SumNonNegative(s: seq<int>)
    requires forall i | 0 <= i < |s| :: s[i] >= 0
    ensures Sum(s) >= 0
  {
    if s != [] {
      SumNonNegative(s[..|s| - 1]);
    }
  }

  /** Adding the shares back never overflows, and taking the amount away leaves nothing. */
  lemma SharesAddBack(amount: Int64, n: Int64, parts: seq<Int64>)
    requires n >= 1 && amount >= 0 && parts == Shares(amount, n)
    ensures AddAll(parts) == Ok(amount) && Sub(amount, amount) == Ok(0)
  {
    QuotientRemainder(amount, n);
    SharesAreExact(amount, n);
    AddAllOfPrefix(parts);
    SubIsDifference(amount, amount);
  }
}
