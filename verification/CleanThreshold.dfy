/** The threshold that admits no negative, from `lib.py`, over exact reals. */
module CleanThreshold {
  import opened Wrappers

  predicate Admitted(v: Option<real>, t: real) { v.Some? && v.value >= t }

  function Values(vals: seq<Option<real>>): seq<real> {
    if vals == [] then []
    else (if vals[0].Some? then [vals[0].value] else []) + Values(vals[1..])
  }

  function Max(s: seq<real>): real
    requires s != []
  {
    if |s| == 1 then s[0]
    else
      var rest := Max(s[1..]);
      if s[0] > rest then s[0] else rest
  }

  /** Python's `round`: to the nearest, halves to even. */
  function Round(x: real): int {
    var below := x.Floor;
    var part := x - below as real;
    if part < 0.5 || (part == 0.5 && below % 2 == 0) then below else below + 1
  }

  function RoundTo9(x: real): real { Round(x * 1000000000.0) as real / 1000000000.0 }

  /** The step below which nothing is admitted: no grid adds a fixed margin instead. */
  function CleanThreshold(negatives: seq<Option<real>>, grid: real): real {
    var m := Values(negatives);
    if m == [] then -1000000000000000000.0
    else if grid != 0.0 then (RoundTo9(Max(m) / grid).Floor + 1) as real * grid
    else Max(m) + 0.000000001
  }

  lemma {:induction false} ValuesHold(vals: seq<Option<real>>, x: real)
    ensures x in Values(vals) <==> Some(x) in vals
    decreases vals
  {
    if vals != [] {
      ValuesHold(vals[1..], x);
      assert vals == [vals[0]] + vals[1..];
    }
  }

  lemma {:induction false} MaxIsMax(s: seq<real>)
    requires s != []
    ensures Max(s) in s && forall x :: x in s ==> x <= Max(s)
    decreases s
  {
    if |s| > 1 {
      MaxIsMax(s[1..]);
      assert s == [s[0]] + s[1..];
    }
  }

  /** `q` is just short of the next whole step, so that rounding carries it there. */
  predicate JustShort(q: real) { (q.Floor + 1) as real - q <= 0.0000000005 }

  lemma RoundBetween(x: real, lo: int, hi: int)
    requires lo as real <= x < hi as real && hi % 2 == 0
    ensures lo <= Round(x) <= hi
    ensures Round(x) == hi <==> hi as real - x <= 0.5
  {
    var below := x.Floor;
    assert lo <= below <= hi - 1;
    if below < hi - 1 { assert x < (hi - 1) as real; }
  }

  lemma FloorOfQuotient(r: int, f: int)
    requires 1000000000 * f <= r < 1000000000 * (f + 1)
    ensures (r as real / 1000000000.0).Floor == f
  {
    var y := r as real / 1000000000.0;
    assert f as real <= y < (f + 1) as real;
  }

  lemma Magnified(q: real)
    ensures var f := q.Floor;
            && (1000000000 * f) as real <= q * 1000000000.0 < (1000000000 * (f + 1)) as real
            && (JustShort(q) <==> (1000000000 * (f + 1)) as real - q * 1000000000.0 <= 0.5)
  {
  }

  /** Rounding never loses a whole step, and gains one exactly just short of it. */
  lemma FloorOfRounded(q: real)
    ensures RoundTo9(q).Floor == if JustShort(q) then q.Floor + 1 else q.Floor
  {
    hide Round, JustShort;
    var f := q.Floor;
    var lo, hi := 1000000000 * f, 1000000000 * (f + 1);
    Magnified(q);
    RoundBetween(q * 1000000000.0, lo, hi);
    if JustShort(q) {
      assert Round(q * 1000000000.0) == hi;
      FloorOfQuotient(hi, f + 1);
    } else {
      assert lo <= Round(q * 1000000000.0) < hi;
      FloorOfQuotient(Round(q * 1000000000.0), f);
    }
  }

  lemma FloorBelow(q: real, i: int)
    ensures q < i as real <==> q.Floor < i
  {
  }

  function Step(i: int, grid: real): real { i as real * grid }

  lemma Scaled(p: real, q: real, grid: real)
    requires grid > 0.0
    ensures p < q <==> p * grid < q * grid
  {
    if p < q { assert (q - p) * grid > 0.0; } else { assert (p - q) * grid >= 0.0; }
  }

  predicate AdmitsNone(negatives: seq<Option<real>>, t: real) {
    forall v :: v in negatives ==> !Admitted(v, t)
  }

  lemma NoneIffAboveMax(negatives: seq<Option<real>>, t: real)
    requires Values(negatives) != []
    ensures AdmitsNone(negatives, t) <==> Max(Values(negatives)) < t
  {
    var mx := Max(Values(negatives));
    MaxIsMax(Values(negatives));
    ValuesHold(negatives, mx);
    forall v | v in negatives && v.Some? ensures v.value <= mx { ValuesHold(negatives, v.value); }
    if AdmitsNone(negatives, t) { assert !Admitted(Some(mx), t); }
  }

  lemma QuotientBelow(mx: real, i: int, grid: real)
    requires grid > 0.0
    ensures mx < Step(i, grid) <==> i > (mx / grid).Floor
  {
    var q := mx / grid;
    assert q * grid == mx;
    Scaled(q, i as real, grid);
    FloorBelow(q, i);
  }

  lemma StepAdmitsNone(negatives: seq<Option<real>>, grid: real, i: int)
    requires grid > 0.0 && Values(negatives) != []
    ensures AdmitsNone(negatives, Step(i, grid)) <==> i > (Max(Values(negatives)) / grid).Floor
  {
    hide AdmitsNone, Max, Values;
    NoneIffAboveMax(negatives, Step(i, grid));
    QuotientBelow(Max(Values(negatives)), i, grid);
  }

  /** On a grid the threshold is a whole step, one or two above the highest value's own. */
  lemma ThresholdIsStep(negatives: seq<Option<real>>, grid: real) returns (q: real)
    requires grid != 0.0 && Values(negatives) != []
    ensures q == Max(Values(negatives)) / grid
    ensures CleanThreshold(negatives, grid) == Step(q.Floor + if JustShort(q) then 2 else 1, grid)
  {
    q := Max(Values(negatives)) / grid;
    FloorOfRounded(q);
    hide RoundTo9, Max, Values, JustShort;
  }

  lemma QuotientBelowNegative(mx: real, i: int, grid: real)
    requires grid < 0.0
    ensures mx < Step(i, grid) <==> (i as real) < mx / grid
  {
    var q := mx / grid;
    assert q * grid == mx;
    Scaled(i as real, q, -grid);
    assert Step(i, grid) == -(i as real * -grid) && mx == -(q * -grid);
  }

  lemma NegativeGridAdmits(negatives: seq<Option<real>>, grid: real)
    requires grid < 0.0 && Values(negatives) != []
    ensures !AdmitsNone(negatives, CleanThreshold(negatives, grid))
  {
    hide CleanThreshold, AdmitsNone, JustShort, Step, Max;
    var q := ThresholdIsStep(negatives, grid);
    var own := q.Floor + if JustShort(q) then 2 else 1;
    NoneIffAboveMax(negatives, Step(own, grid));
    QuotientBelowNegative(Max(Values(negatives)), own, grid);
    FloorBelow(q, own);
  }

  /** No negative is admitted exactly when the grid is not below zero, or there is no
      negative to admit. */
  lemma ThresholdIsCleanIff(negatives: seq<Option<real>>, grid: real)
    ensures AdmitsNone(negatives, CleanThreshold(negatives, grid)) <==> grid >= 0.0 || Values(negatives) == []
  {
    if Values(negatives) == [] {
      forall v | v in negatives ensures v.None? { if v.Some? { ValuesHold(negatives, v.value); } }
    } else if grid == 0.0 {
      NoneIffAboveMax(negatives, CleanThreshold(negatives, grid));
    } else if grid > 0.0 {
      hide CleanThreshold, AdmitsNone, JustShort, Step, Max;
      var q := ThresholdIsStep(negatives, grid);
      StepAdmitsNone(negatives, grid, q.Floor + if JustShort(q) then 2 else 1);
    } else {
      NegativeGridAdmits(negatives, grid);
    }
  }

  lemma StepsCompare(i: int, j: int, grid: real)
    requires grid > 0.0
    ensures Step(i, grid) <= Step(j, grid) <==> i <= j
  {
    Scaled(j as real, i as real, grid);
  }

  /** It is the lowest grid step admitting none exactly when the rounding did not carry the
      highest negative over a step it falls just short of. */
  lemma LowestStepIff(negatives: seq<Option<real>>, grid: real)
    requires grid > 0.0 && Values(negatives) != []
    ensures (forall i :: AdmitsNone(negatives, Step(i, grid)) ==> CleanThreshold(negatives, grid) <= Step(i, grid))
      <==> !JustShort(Max(Values(negatives)) / grid)
  {
    hide RoundTo9, CleanThreshold, Max, Values, AdmitsNone, Step, JustShort;
    var q := ThresholdIsStep(negatives, grid);
    var own := q.Floor + if JustShort(q) then 2 else 1;
    forall i ensures AdmitsNone(negatives, Step(i, grid)) <==> i > q.Floor { StepAdmitsNone(negatives, grid, i); }
    forall i ensures Step(own, grid) <= Step(i, grid) <==> own <= i { StepsCompare(own, i, grid); }
    assert AdmitsNone(negatives, Step(q.Floor + 1, grid));
  }

  /** The highest of the negatives that have a value. */
  ghost predicate Highest(negatives: seq<Option<real>>, mx: real) {
    Some(mx) in negatives && forall v :: v in negatives && v.Some? ==> v.value <= mx
  }

  lemma HighestIsMax(negatives: seq<Option<real>>, mx: real)
    requires Highest(negatives, mx)
    ensures Values(negatives) != [] && Max(Values(negatives)) == mx
  {
    ValuesHold(negatives, mx);
    MaxIsMax(Values(negatives));
    ValuesHold(negatives, Max(Values(negatives)));
  }

  lemma StepAbove(q: real, i: int, grid: real, slack: real)
    requires grid > 0.0 && i as real - q <= slack
    ensures Step(i, grid) <= q * grid + slack * grid
  {
    assert (slack - (i as real - q)) * grid >= 0.0;
  }

  /** The threshold stays close to the highest negative: a fixed 1e-9 above it without a grid,
      and on a grid a whole step at most one step, and what rounding may carry, above it. */
  lemma ThresholdIsTight(negatives: seq<Option<real>>, grid: real, mx: real)
    requires Highest(negatives, mx) && grid >= 0.0
    ensures var t := CleanThreshold(negatives, grid);
            && (grid == 0.0 ==> t == mx + 0.000000001)
            && (grid > 0.0 ==> mx < t <= mx + 1.0000000005 * grid && exists i: int :: t == Step(i, grid))
  {
    HighestIsMax(negatives, mx);
    if grid > 0.0 {
      var q := ThresholdIsStep(negatives, grid);
      assert q * grid == mx;
      var own := q.Floor + if JustShort(q) then 2 else 1;
      assert own as real - q <= 1.0000000005;
      hide CleanThreshold, Max, Values, JustShort, Step;
      StepAbove(q, own, grid, 1.0000000005);
      QuotientBelow(mx, own, grid);
    }
  }

  /** With no value to go by, nothing above -1e18 is turned away. */
  lemma NoNegativesNoThreshold(negatives: seq<Option<real>>, grid: real)
    requires forall v :: v in negatives ==> v.None?
    ensures CleanThreshold(negatives, grid) == -1000000000000000000.0
  {
    if Values(negatives) != [] { ValuesHold(negatives, Values(negatives)[0]); }
  }
}
