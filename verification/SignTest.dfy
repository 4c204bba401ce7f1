/** The exact two-sided sign test of the recall evaluation, in exact arithmetic. */
module SignTest {
  /** Pascal's triangle: `math.comb`. */
  function Comb(n: nat, k: nat): nat {
    if k == 0 then 1 else if n == 0 then 0 else Comb(n - 1, k - 1) + Comb(n - 1, k)
  }

  function Pow2(n: nat): (p: nat)
    ensures p > 0
  {
    if n == 0 then 1 else 2 * Pow2(n - 1)
  }

  /** The sum of `comb(n, i)` for `i` from 0 to `k`. */
  function Tail(n: nat, k: nat): nat {
    Comb(n, k) + if k == 0 then 0 else Tail(n, k - 1)
  }

  /** Positions where the first sample hit and the second did not; `zip` stops at the shorter. */
  function Wins(a: seq<bool>, b: seq<bool>): nat {
    if a == [] || b == [] then 0 else (if a[0] && !b[0] then 1 else 0) + Wins(a[1..], b[1..])
  }

  function Min(x: nat, y: nat): nat { if x < y then x else y }

  function Ratio(p: nat, q: nat): real
    requires q > 0
  {
    p as real / q as real
  }

  /** The two-sided sum before it is clamped. */
  function Unclamped(n: nat, k: nat): real {
    Ratio(Tail(n, k), Pow2(n)) * 2.0
  }

  function PValue(x: nat, y: nat): real {
    if x + y == 0 then 1.0
    else
      var p := Unclamped(x + y, Min(x, y));
      if p < 1.0 then p else 1.0
  }

  function SignTest(a: seq<bool>, b: seq<bool>): (real, nat, nat) {
    (PValue(Wins(a, b), Wins(b, a)), Wins(a, b), Wins(b, a))
  }

  // ---------------------------------------------------------------- what p must be

  /** One outcome of `n` discordant pairs: which sample won each. */
  type Outcome = seq<bool>

  function Ones(o: Outcome): nat {
    if o == [] then 0 else (if o[0] then 1 else 0) + Ones(o[1..])
  }

  /** All outcomes of `n` pairs. */
  function Outcomes(n: nat): set<Outcome> {
    if n == 0 then {[]} else Prefixed(true, Outcomes(n - 1)) + Prefixed(false, Outcomes(n - 1))
  }

  function Prefixed(head: bool, s: set<Outcome>): set<Outcome> { set o | o in s :: [head] + o }

  /** Outcomes with at most `k` wins on one side. */
  function Extreme(n: nat, k: nat): set<Outcome> {
    set o | o in Outcomes(n) && (Ones(o) <= k || n - Ones(o) <= k)
  }

  function WithOnes(n: nat, i: nat): set<Outcome> { set o | o in Outcomes(n) && Ones(o) == i }

  function AtMostOnes(n: nat, k: nat): set<Outcome> { set o | o in Outcomes(n) && Ones(o) <= k }

  function AtMostZeros(n: nat, k: nat): set<Outcome> { set o | o in Outcomes(n) && n - Ones(o) <= k }

  lemma PrefixedMembers(head: bool, s: set<Outcome>, o: Outcome)
    ensures o in Prefixed(head, s) <==> o != [] && o[0] == head && o[1..] in s
  {
    if o != [] && o[0] == head && o[1..] in s { assert o == [head] + o[1..]; }
    if o in Prefixed(head, s) {
      var p :| p in s && o == [head] + p;
      assert o[1..] == p;
    }
  }

  lemma {:induction false} OutcomesAreAll(n: nat, o: Outcome)
    ensures o in Outcomes(n) <==> |o| == n
    decreases n
  {
    if n > 0 {
      PrefixedMembers(true, Outcomes(n - 1), o);
      PrefixedMembers(false, Outcomes(n - 1), o);
      if o != [] { OutcomesAreAll(n - 1, o[1..]); }
    }
  }

  /** Prefixing is one-to-one. */
  lemma {:induction false} PrefixCount(head: bool, s: set<Outcome>)
    ensures |Prefixed(head, s)| == |s|
    decreases |s|
  {
    if s == {} {
      assert Prefixed(head, s) == {};
    } else {
      var x :| x in s;
      PrefixCount(head, s - {x});
      PrefixedMembers(head, s - {x}, [head] + x);
      assert ([head] + x)[1..] == x;
      assert Prefixed(head, s) == Prefixed(head, s - {x}) + {[head] + x};
    }
  }

  lemma PrefixedApart(s: set<Outcome>, t: set<Outcome>)
    ensures |Prefixed(true, s) + Prefixed(false, t)| == |s| + |t|
  {
    PrefixCount(true, s);
    PrefixCount(false, t);
    forall o | o in Prefixed(true, s) ensures o !in Prefixed(false, t) {
      PrefixedMembers(true, s, o);
      PrefixedMembers(false, t, o);
    }
    assert Prefixed(true, s) !! Prefixed(false, t);
  }

  lemma WithOnesSplits(n: nat, i: nat)
    requires n > 0
    ensures WithOnes(n, i) ==
            Prefixed(true, if i == 0 then {} else WithOnes(n - 1, i - 1)) + Prefixed(false, WithOnes(n - 1, i))
  {
    var wins := if i == 0 then {} else WithOnes(n - 1, i - 1);
    forall o ensures o in WithOnes(n, i) <==> o in Prefixed(true, wins) + Prefixed(false, WithOnes(n - 1, i)) {
      PrefixedMembers(true, Outcomes(n - 1), o);
      PrefixedMembers(false, Outcomes(n - 1), o);
      PrefixedMembers(true, wins, o);
      PrefixedMembers(false, WithOnes(n - 1, i), o);
      hide Prefixed;
    }
  }

  lemma CombCountsNone(i: nat)
    ensures |WithOnes(0, i)| == Comb(0, i)
  {
    assert Ones([]) == 0;
    assert WithOnes(0, i) == if i == 0 then {[]} else {};
  }

  lemma {:induction false} CombCounts(n: nat, i: nat)
    ensures |WithOnes(n, i)| == Comb(n, i)
    decreases n
  {
    hide WithOnes, Prefixed, Outcomes, Ones;
    if n == 0 {
      CombCountsNone(i);
      return;
    }
    WithOnesSplits(n, i);
    PrefixedApart(if i == 0 then {} else WithOnes(n - 1, i - 1), WithOnes(n - 1, i));
    CombCounts(n - 1, i);
    if i > 0 { CombCounts(n - 1, i - 1); } else { CombZero(n - 1); }
  }

  lemma CombZero(n: nat)
    ensures Comb(n, 0) == 1
  {
  }

  lemma {:induction false} TailCounts(n: nat, k: nat)
    ensures |AtMostOnes(n, k)| == Tail(n, k)
    decreases k
  {
    CombCounts(n, k);
    if k == 0 {
      assert AtMostOnes(n, 0) == WithOnes(n, 0);
    } else {
      TailCounts(n, k - 1);
      assert AtMostOnes(n, k) == AtMostOnes(n, k - 1) + WithOnes(n, k);
    }
  }

  function Flip(o: Outcome): Outcome { seq(|o|, i requires 0 <= i < |o| => !o[i]) }

  lemma {:induction false} FlipOnes(o: Outcome)
    ensures |Flip(o)| == |o| && Flip(Flip(o)) == o
    ensures Ones(Flip(o)) == |o| - Ones(o)
    decreases o
  {
    if o != [] {
      FlipOnes(o[1..]);
      assert Flip(o)[1..] == Flip(o[1..]);
    }
  }

  lemma {:induction false} FlipCount(s: set<Outcome>)
    ensures |set o | o in s :: Flip(o)| == |s|
    decreases |s|
  {
    var image := set o | o in s :: Flip(o);
    if s == {} {
      assert image == {};
    } else {
      var x :| x in s;
      var rest := s - {x};
      FlipCount(rest);
      var smaller := set o | o in rest :: Flip(o);
      FlipOnes(x);
      forall o | o in rest ensures Flip(o) != Flip(x) { FlipOnes(o); }
      assert image == smaller + {Flip(x)};
    }
  }

  /** By symmetry the other tail has as many outcomes. */
  lemma ZerosCount(n: nat, k: nat)
    ensures |AtMostZeros(n, k)| == Tail(n, k)
  {
    TailCounts(n, k);
    FlipCount(AtMostOnes(n, k));
    var image := set o | o in AtMostOnes(n, k) :: Flip(o);
    forall o ensures o in image <==> o in AtMostZeros(n, k) {
      OutcomesAreAll(n, o);
      OutcomesAreAll(n, Flip(o));
      FlipOnes(o);
      if o in AtMostZeros(n, k) { assert Flip(Flip(o)) in image; }
      if o in image {
        var p :| p in AtMostOnes(n, k) && o == Flip(p);
        OutcomesAreAll(n, p);
        FlipOnes(p);
      }
    }
    assert image == AtMostZeros(n, k);
  }

  lemma {:induction false} OutcomesCount(n: nat)
    ensures |Outcomes(n)| == Pow2(n)
    decreases n
  {
    if n > 0 {
      OutcomesCount(n - 1);
      PrefixedApart(Outcomes(n - 1), Outcomes(n - 1));
    }
  }

  lemma ExtremeCounts(n: nat, k: nat)
    ensures 2 * k < n ==> |Extreme(n, k)| == 2 * Tail(n, k)
    ensures 2 * k >= n ==> Extreme(n, k) == Outcomes(n)
  {
    var low, high := AtMostOnes(n, k), AtMostZeros(n, k);
    assert Extreme(n, k) == low + high;
    TailCounts(n, k);
    ZerosCount(n, k);
    if 2 * k < n { assert low !! high; }
  }

  /** Both tails overlap when `2k >= n`, and then the doubled sum exceeds every outcome. */
  lemma OverlapExceeds(n: nat, k: nat)
    requires n > 0 && 2 * k == n
    ensures 2 * Tail(n, k) > Pow2(n)
  {
    var low, high := AtMostOnes(n, k), AtMostZeros(n, k);
    TailCounts(n, k);
    ZerosCount(n, k);
    OutcomesCount(n);
    ExtremeCounts(n, k);
    CombCounts(n, k);
    CombPositive(n, k);
    assert low + high == Outcomes(n);
    assert low * high == WithOnes(n, k);
    assert |low + high| == |low| + |high| - |low * high|;
  }

  lemma {:induction false} CombPositive(n: nat, k: nat)
    requires k <= n
    ensures Comb(n, k) > 0
    decreases n
  {
    if k > 0 { CombPositive(n - 1, k - 1); }
  }

  // ------------------------------------------------------------------------ theorems

  lemma RatioTimes(p: nat, q: nat)
    requires q > 0
    ensures Ratio(p, q) * q as real == p as real
  {
  }

  lemma RatioDoubled(p: nat, q: nat)
    requires q > 0
    ensures Ratio(p, q) * 2.0 == Ratio(2 * p, q)
    ensures Ratio(p, q) == Ratio(2 * p, 2 * q)
  {
    hide Ratio;
    RatioTimes(p, q);
    RatioTimes(2 * p, q);
    RatioTimes(2 * p, 2 * q);
    Doubled(Ratio(p, q), q as real, p as real);
    Cancel(Ratio(p, q) * 2.0, Ratio(2 * p, q), q as real);
    Cancel(Ratio(p, q), Ratio(2 * p, 2 * q), (2 * q) as real);
  }

  lemma Doubled(r: real, d: real, x: real)
    requires r * d == x
    ensures (r * 2.0) * d == 2.0 * x && r * (2.0 * d) == 2.0 * x
  {
  }

  lemma Cancel(x: real, y: real, d: real)
    requires d > 0.0 && x * d == y * d
    ensures x == y
  {
    assert (x - y) * d == 0.0;
  }

  lemma CompareScaled(x: real, y: real, d: real)
    requires d > 0.0
    ensures x <= y <==> x * d <= y * d
  {
    if x <= y { assert (y - x) * d >= 0.0; } else { assert (x - y) * d > 0.0; }
  }

  lemma RatioOrder(p: nat, q: nat, d: nat)
    requires d > 0
    ensures Ratio(p, d) <= Ratio(q, d) <==> p <= q
    ensures Ratio(d, d) == 1.0
  {
    RatioTimes(p, d);
    RatioTimes(q, d);
    RatioTimes(d, d);
    hide Ratio;
    Cancel(Ratio(d, d), 1.0, d as real);
    CompareScaled(Ratio(p, d), Ratio(q, d), d as real);
  }

  /** The unclamped sum against 1 is the doubled tail against the number of outcomes. */
  lemma UnclampedAgainstOne(n: nat, k: nat)
    ensures Unclamped(n, k) == Ratio(2 * Tail(n, k), Pow2(n))
    ensures Unclamped(n, k) <= 1.0 <==> 2 * Tail(n, k) <= Pow2(n)
  {
    RatioDoubled(Tail(n, k), Pow2(n));
    hide Tail, Pow2, Ratio;
    RatioOrder(2 * Tail(n, k), Pow2(n), Pow2(n));
  }

  /** The returned p is the fraction of the `2^n` outcomes with at most min(x, y) on one side. */
  lemma PValueIsTheFraction(x: nat, y: nat)
    ensures |Outcomes(x + y)| == Pow2(x + y)
    ensures PValue(x, y) == Ratio(|Extreme(x + y, Min(x, y))|, Pow2(x + y))
  {
    hide Pow2, Tail, Extreme, Outcomes, Unclamped, Ratio;
    var n, k := x + y, Min(x, y);
    OutcomesCount(n);
    ExtremeCounts(n, k);
    UnclampedAgainstOne(n, k);
    RatioOrder(0, 0, Pow2(n));
    if n > 0 { ClampFiresOnlyOnTies(x, y); }
  }

  lemma ExtremeIsPart(n: nat, k: nat)
    ensures |Extreme(n, k)| <= |Outcomes(n)|
  {
    SubsetCount(Extreme(n, k), Outcomes(n));
  }

  lemma {:induction false} SubsetCount(a: set<Outcome>, b: set<Outcome>)
    requires a <= b
    ensures |a| <= |b|
    ensures a != b ==> |a| < |b|
  {
    assert b == a + (b - a);
    if a != b { assert b - a != {}; }
  }

  /** The clamp is what makes a tie report 1, and it never acts otherwise. */
  lemma ClampFiresOnlyOnTies(x: nat, y: nat)
    requires x + y > 0
    ensures x == y <==> Unclamped(x + y, Min(x, y)) > 1.0
    ensures x != y ==> PValue(x, y) == Unclamped(x + y, Min(x, y))
  {
    hide Pow2, Tail, Extreme, Outcomes, Unclamped, Ratio;
    var n, k := x + y, Min(x, y);
    UnclampedAgainstOne(n, k);
    if x == y {
      OverlapExceeds(n, k);
    } else {
      ExtremeCounts(n, k);
      OutcomesCount(n);
      ExtremeIsPart(n, k);
    }
  }

  lemma {:induction false} TailMonotone(n: nat, k: nat, more: nat)
    requires k <= more
    ensures Tail(n, k) <= Tail(n, more)
    decreases more
  {
    if k < more { TailMonotone(n, k, more - 1); }
  }

  /** Over the same number of discordant pairs, p grows with the smaller count. */
  lemma PValueMonotone(x: nat, y: nat, x': nat, y': nat)
    requires x + y == x' + y' && Min(x, y) <= Min(x', y')
    ensures PValue(x, y) <= PValue(x', y')
  {
    hide Tail, Pow2, Unclamped, Ratio;
    TailMonotone(x + y, Min(x, y), Min(x', y'));
    UnclampedAgainstOne(x + y, Min(x, y));
    UnclampedAgainstOne(x + y, Min(x', y'));
    RatioOrder(2 * Tail(x + y, Min(x, y)), 2 * Tail(x + y, Min(x', y')), Pow2(x + y));
  }

  lemma {:induction false} TailStep(n: nat, k: nat)
    ensures Tail(n + 1, k) == Tail(n, k) + (if k == 0 then 0 else Tail(n, k - 1))
    decreases k
  {
    if k > 0 { TailStep(n, k - 1); }
  }

  /** So does adding a win to the losing side. */
  lemma PValueMonotoneInLosses(x: nat, y: nat)
    requires x < y
    ensures PValue(x, y) <= PValue(x + 1, y)
  {
    var n := x + y;
    TailStep(n, x + 1);
    assert Pow2(n + 1) == 2 * Pow2(n);
    hide Tail, Pow2, Unclamped, Ratio;
    TailMonotone(n, x, x + 1);
    UnclampedAgainstOne(n, x);
    UnclampedAgainstOne(n + 1, x + 1);
    RatioDoubled(2 * Tail(n, x), Pow2(n));
    RatioOrder(2 * (2 * Tail(n, x)), 2 * Tail(n + 1, x + 1), Pow2(n + 1));
    assert Min(x, y) == x && Min(x + 1, y) == x + 1;
  }

  /** Swapping the samples swaps the counts and keeps p. */
  lemma SwapKeepsP(a: seq<bool>, b: seq<bool>)
    ensures SignTest(b, a) == (SignTest(a, b).0, SignTest(a, b).2, SignTest(a, b).1)
  {
  }

  // ------------------------------------------------------------- what the counts count

  /** The queries asked of both samples where the first one hit and the second did not. */
  ghost function WinsAt(a: seq<bool>, b: seq<bool>): set<nat> {
    set i: nat | i < |a| && i < |b| && a[i] && !b[i]
  }

  ghost function DiffersAt(a: seq<bool>, b: seq<bool>): set<nat> {
    set i: nat | i < |a| && i < |b| && a[i] != b[i]
  }

  ghost function Shifted(s: set<nat>): set<nat> { set i: nat | i in s :: i + 1 }

  lemma ShiftedHolds(s: set<nat>, j: nat)
    ensures j in Shifted(s) <==> j > 0 && j - 1 in s
  {
    if j > 0 && j - 1 in s {
      var i: nat := j - 1;
      assert i in s && i + 1 == j;
    }
  }

  lemma {:induction false} ShiftCount(s: set<nat>)
    ensures |Shifted(s)| == |s|
    decreases s
  {
    if s != {} {
      var x :| x in s;
      ShiftCount(s - {x});
      forall j: nat ensures j in Shifted(s) <==> j in Shifted(s - {x}) + {x + 1} {
        ShiftedHolds(s, j);
        ShiftedHolds(s - {x}, j);
      }
      ShiftedHolds(s - {x}, x + 1);
      assert Shifted(s) == Shifted(s - {x}) + {x + 1};
    }
  }

  lemma WinsAtSplits(a: seq<bool>, b: seq<bool>)
    requires a != [] && b != []
    ensures WinsAt(a, b) == (if a[0] && !b[0] then {0} else {}) + Shifted(WinsAt(a[1..], b[1..]))
  {
    forall i: nat ensures i in Shifted(WinsAt(a[1..], b[1..])) <==> i in WinsAt(a, b) && i > 0 {
      ShiftedHolds(WinsAt(a[1..], b[1..]), i);
    }
  }

  lemma {:induction false} WinsCount(a: seq<bool>, b: seq<bool>)
    ensures Wins(a, b) == |WinsAt(a, b)|
    decreases a
  {
    if a != [] && b != [] {
      WinsCount(a[1..], b[1..]);
      WinsAtSplits(a, b);
      ShiftCount(WinsAt(a[1..], b[1..]));
    }
  }

  /** The test reports at how many queries either sample alone hit, which together are those
      they differ at, and of all ways these could have gone the fraction at least as one-sided. */
  lemma SignTestIsTheFraction(a: seq<bool>, b: seq<bool>)
    ensures var n := |DiffersAt(a, b)|;
            var (p, x, y) := SignTest(a, b);
            && x == |WinsAt(a, b)| && y == |WinsAt(b, a)| && x + y == n
            && |Outcomes(n)| > 0
            && p == Ratio(|Extreme(n, Min(x, y))|, |Outcomes(n)|)
  {
    WinsCount(a, b);
    WinsCount(b, a);
    assert DiffersAt(a, b) == WinsAt(a, b) + WinsAt(b, a) && WinsAt(a, b) !! WinsAt(b, a);
    hide Extreme, Outcomes, PValue, Wins, WinsAt, DiffersAt;
    PValueIsTheFraction(Wins(a, b), Wins(b, a));
  }

  // -------------------------------------------------------- Pascal's rule is math.comb

  function Factorial(n: nat): nat { if n == 0 then 1 else n * Factorial(n - 1) }

  lemma {:induction false} CombAbove(n: nat, k: nat)
    requires k > n
    ensures Comb(n, k) == 0
    decreases n
  {
    if n > 0 {
      CombAbove(n - 1, k - 1);
      CombAbove(n - 1, k);
    }
  }

  /** Pascal's rule over factorials: `c` and `d` are the two entries above. */
  lemma PascalFactorials(c: int, d: int, k: int, m: int, f: int, g: int, total: int)
    requires c * f * (m * g) == total && d * (k * f) * g == total
    ensures (c + d) * (k * f) * (m * g) == (k + m) * total
  {
    assert c * (k * f) * (m * g) == k * (c * f * (m * g));
    assert d * (k * f) * (m * g) == m * (d * (k * f) * g);
  }

  lemma {:induction false} CombIsFactorial(n: nat, k: nat)
    requires k <= n
    ensures Comb(n, k) * Factorial(k) * Factorial(n - k) == Factorial(n)
    decreases n
  {
    if k == 0 {
      assert Comb(n, 0) == 1;
    } else if k == n {
      CombAbove(n - 1, n);
      CombIsFactorial(n - 1, n - 1);
      var c, f := Comb(n - 1, n - 1), Factorial(n - 1);
      assert c * f == f;
      assert c * (n * f) == n * (c * f);
    } else {
      CombIsFactorial(n - 1, k - 1);
      CombIsFactorial(n - 1, k);
      var f, g := Factorial(k - 1), Factorial(n - 1 - k);
      assert Factorial(k) == k * f && Factorial(n - k) == (n - k) * g;
      PascalFactorials(Comb(n - 1, k - 1), Comb(n - 1, k), k, n - k, f, g, Factorial(n - 1));
    }
  }
}
