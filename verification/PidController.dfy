/** The feedback controller: the queue utilisation is smoothed, compared with two marks, and
    the sampling probability is multiplied up or down within its limits, with a harsher
    factor after sustained overload.  Exact reals stand for the floating-point numbers. */
module PidController {
  import opened Wrappers
  import opened Arithmetic

  datatype Config = Config(
    high: real, low: real, up: real, down: real, alpha: real, aggressive: real, window: nat)
  {
    /** What the configuration check accepts. */
    predicate Valid() {
      && 0.0 < high <= 1.0 && 0.0 < low <= 1.0 && low < high
      && 0.0 < up && 0.0 < down < 1.0 && 0.0 < alpha <= 1.0 && 0.0 < aggressive < 1.0
      && window > 0
    }
  }

  datatype Limits = Limits(minP: real, maxP: real) {
    predicate Valid() {
      0.0 <= minP <= maxP <= 1.0
    }
  }

  function Clamp(p: real, l: Limits): (r: real)
    requires l.Valid()
    ensures l.minP <= r <= l.maxP
    ensures l.minP <= p <= l.maxP ==> r == p
  {
    var q := if p < l.minP then l.minP else p;
    if q > l.maxP then l.maxP else q
  }

  /** Products are named, so that the solver can match them without nonlinear reasoning. */
  function Times(x: real, y: real): real {
    x * y
  }

  /** The probability multiplied by a factor, within the limits. */
  function Scale(p: real, f: real, l: Limits): real
    requires l.Valid()
  {
    Clamp(Times(p, f), l)
  }

  // ----- one cycle -----

  datatype State = State(ewma: real, highCount: nat, lowCount: nat, adjustments: nat, drops: nat, p: real)

  function Smooth(c: Config, ewma: real, u: real): real {
    Times(c.alpha, u) + Times(1.0 - c.alpha, ewma)
  }

  /** One control cycle.  `u` is the scraped utilisation, missing if the scrape failed;
      `registered` says whether the sampler was found in the registry. */
  function Cycle(c: Config, l: Limits, s: State, u: Option<real>, registered: bool): State
    requires l.Valid()
  {
    if u.None? then s
    else
      var ewma := Smooth(c, s.ewma, u.value);
      if !registered then s.(ewma := ewma)
      else if ewma > c.high then
        var count := s.highCount + 1;
        if count >= c.window then
          State(ewma, 0, 0, s.adjustments + 1, s.drops + 1, Scale(s.p, c.aggressive, l))
        else
          State(ewma, count, 0, s.adjustments + 1, s.drops, Scale(s.p, c.down, l))
      else if ewma < c.low then
        State(ewma, 0, s.lowCount + 1, s.adjustments + 1, s.drops, Scale(s.p, c.up, l))
      else State(ewma, 0, 0, s.adjustments, s.drops, Clamp(s.p, l))
  }

  /** The state after a sequence of successful cycles. */
  function After(c: Config, l: Limits, s: State, us: seq<real>): State
    requires l.Valid()
  {
    if us == [] then s
    else Cycle(c, l, After(c, l, s, us[..|us| - 1]), Some(us[|us| - 1]), true)
  }

  ghost predicate Regular(c: Config, l: Limits, s: State) {
    l.minP <= s.p <= l.maxP && s.highCount < c.window
  }

  /** Every cycle, whatever the utilisation and whatever came before, leaves the probability
      within its limits and the overload counter below the window. */
  lemma StaysRegular(c: Config, l: Limits, s: State, us: seq<real>)
    requires c.Valid() && l.Valid() && (us != [] || Regular(c, l, s))
    ensures Regular(c, l, After(c, l, s, us))
  {
  }

  lemma {:induction false} AfterConcat(c: Config, l: Limits, s: State, a: seq<real>, b: seq<real>)
    requires l.Valid()
    ensures After(c, l, s, a + b) == After(c, l, After(c, l, s, a), b)
  {
    if b == [] {
      assert a + b == a;
    } else {
      var n := |b| - 1;
      AfterConcat(c, l, s, a, b[..n]);
      assert (a + b)[..|a + b| - 1] == a + b[..n];
    }
  }

  // ----- powers -----

  function Pow(x: real, n: nat): real {
    if n == 0 then 1.0 else Times(x, Pow(x, n - 1))
  }

  lemma TimesMonotone(x: real, y: real, z: real)
    requires 0.0 <= z && x <= y
    ensures Times(x, z) <= Times(y, z) && Times(z, x) <= Times(z, y)
  {
    assert (y - x) * z >= 0.0;
  }

  lemma TimesPositive(x: real, y: real)
    requires x > 0.0 && y > 0.0
    ensures Times(x, y) > 0.0
  {
  }

  lemma TimesUnits(x: real)
    ensures Times(x, 1.0) == x == Times(1.0, x) && Times(x, 0.0) == 0.0 == Times(0.0, x)
  {
  }

  lemma TimesAssociate(x: real, y: real, z: real)
    ensures Times(Times(x, y), z) == Times(x, Times(y, z))
  {
  }

  lemma TimesCommute(x: real, y: real)
    ensures Times(x, y) == Times(y, x)
  {
  }

  /** A factor between 0 and 1 shrinks. */
  lemma Shrinks(x: real, f: real)
    requires 0.0 <= x && 0.0 <= f <= 1.0
    ensures 0.0 <= Times(x, f) <= x && 0.0 <= Times(f, x) <= x
  {
    TimesMonotone(0.0, f, x);
    TimesMonotone(f, 1.0, x);
    TimesUnits(x);
  }

  lemma {:induction false} PowRange(x: real, n: nat)
    requires 0.0 <= x <= 1.0
    ensures 0.0 <= Pow(x, n) <= 1.0
  {
    if n == 0 {
    } else {
      PowRange(x, n - 1);
      Shrinks(Pow(x, n - 1), x);
    }
  }

  /** A power falls at least as fast as a reciprocal: (1 - b)^n (1 + n b) <= 1. */
  lemma {:induction false} PowFalls(b: real, n: nat)
    requires 0.0 <= b <= 1.0
    ensures Times(Pow(1.0 - b, n), 1.0 + Times(n as real, b)) <= 1.0
  {
    if n == 0 {
      TimesUnits(b);
      TimesUnits(1.0);
    } else {
      PowFalls(b, n - 1);
      PowRange(1.0 - b, n - 1);
      PowFallsStep(b, (n - 1) as real, Pow(1.0 - b, n - 1));
    }
  }

  lemma PowFallsStep(b: real, m: real, q: real)
    requires 0.0 <= b <= 1.0 && 0.0 <= m && 0.0 <= q
    requires Times(q, 1.0 + Times(m, b)) <= 1.0
    ensures Times(Times(1.0 - b, q), 1.0 + Times(m + 1.0, b)) <= 1.0
  {
    BernoulliStep(b, m);
    var x := 1.0 + Times(m + 1.0, b);
    TimesMonotone(Times(1.0 - b, x), 1.0 + Times(m, b), q);
    TimesCommute(1.0 - b, q);
    TimesAssociate(q, 1.0 - b, x);
  }

  lemma BernoulliStep(b: real, m: real)
    requires 0.0 <= b && 0.0 <= m
    ensures Times(1.0 - b, 1.0 + Times(m + 1.0, b)) <= 1.0 + Times(m, b)
  {
    assert (1.0 - b) * (1.0 + (m + 1.0) * b) == 1.0 + m * b - (m + 1.0) * (b * b);
    assert b * b >= 0.0;
    assert (m + 1.0) * (b * b) >= 0.0;
  }

  // ----- smoothing -----

  ghost function Constant(u: real, m: nat): (us: seq<real>)
    ensures |us| == m && forall i :: 0 <= i < m ==> us[i] == u
  {
    seq(m, i => u)
  }

  /** The smoothed value alone, after a sequence of utilisations. */
  function Smoothed(alpha: real, start: real, us: seq<real>): real {
    if us == [] then start
    else Times(alpha, us[|us| - 1]) + Times(1.0 - alpha, Smoothed(alpha, start, us[..|us| - 1]))
  }

  lemma {:induction false} AfterSmooths(c: Config, l: Limits, s: State, us: seq<real>)
    requires l.Valid()
    ensures After(c, l, s, us).ewma == Smoothed(c.alpha, s.ewma, us)
  {
    if us == [] {
    } else {
      AfterSmooths(c, l, s, us[..|us| - 1]);
    }
  }

  /** The value whose distance from u is the starting distance shrunk m times. */
  function Decayed(alpha: real, start: real, u: real, m: nat): real {
    u + Times(Pow(1.0 - alpha, m), start - u)
  }

  lemma {:induction false} SmoothedDecays(alpha: real, start: real, u: real, m: nat)
    ensures Smoothed(alpha, start, Constant(u, m)) == Decayed(alpha, start, u, m)
  {
    if m == 0 {
    } else {
      SmoothedDecays(alpha, start, u, m - 1);
      assert Constant(u, m)[..m - 1] == Constant(u, m - 1);
      ErrorStep(alpha, u, start - u, Pow(1.0 - alpha, m - 1));
    }
  }

  /** With constant utilisation the smoothing error shrinks by the factor 1 - alpha each cycle. */
  lemma ErrorShrinks(c: Config, l: Limits, s: State, u: real, m: nat)
    requires l.Valid()
    ensures After(c, l, s, Constant(u, m)).ewma == Decayed(c.alpha, s.ewma, u, m)
  {
    AfterSmooths(c, l, s, Constant(u, m));
    SmoothedDecays(c.alpha, s.ewma, u, m);
  }

  lemma ErrorStep(a: real, u: real, gap: real, q: real)
    ensures Times(a, u) + Times(1.0 - a, u + Times(q, gap)) == u + Times(Times(1.0 - a, q), gap)
  {
    assert (1.0 - a) * (u + q * gap) == (1.0 - a) * u + (1.0 - a) * (q * gap);
    TimesAssociate(1.0 - a, q, gap);
  }

  // ----- sustained overload -----

  ghost predicate HighAfter(c: Config, l: Limits, s: State, us: seq<real>, i: nat)
    requires l.Valid() && i <= |us|
  {
    After(c, l, s, us[..i]).ewma > c.high
  }

  /** The smoothed utilisation is above the high mark in every one of the cycles. */
  ghost predicate AllHigh(c: Config, l: Limits, s: State, us: seq<real>)
    requires l.Valid()
  {
    forall i :: 0 < i <= |us| ==> HighAfter(c, l, s, us, i)
  }

  /** How many of the next m overloaded cycles apply the harsher factor. */
  function HarshCycles(w: nat, h: nat, m: nat): (a: nat)
    requires h < w
    ensures a <= m
  {
    HarshBound(w, h, m);
    (h + m) / w
  }

  lemma {:induction false} HarshBound(w: nat, h: nat, m: nat)
    requires h < w
    ensures (h + m) / w <= m
  {
    if m == 0 {
      DivModUnique(h, w, 0, h);
    } else {
      HarshBound(w, h, m - 1);
      DivStep(h + m - 1, w);
    }
  }

  lemma DivStep(x: nat, w: nat)
    requires w > 0
    ensures (x + 1) / w == if x % w + 1 == w then x / w + 1 else x / w
    ensures (x + 1) % w == if x % w + 1 == w then 0 else x % w + 1
  {
    var q, r := x / w, x % w;
    assert x == q * w + r;
    if r + 1 == w {
      assert (q + 1) * w == q * w + w;
      DivModUnique(x + 1, w, q + 1, 0);
    } else {
      DivModUnique(x + 1, w, q, r + 1);
    }
  }

  function Max(x: real, y: real): real {
    if x >= y then x else y
  }

  /** The factor of an overloaded cycle entered with the given counter. */
  function Factor(c: Config, count: nat): real {
    if count + 1 == c.window then c.aggressive else c.down
  }

  /** The probability m overloaded cycles would give if nothing held it up. */
  function Unfloored(c: Config, p0: real, h: nat, m: nat): real
    requires c.window > 0
  {
    if m == 0 then p0 else Times(Unfloored(c, p0, h, m - 1), Factor(c, (h + m - 1) % c.window))
  }

  /** p0 lowered by all m cycles, a of them with the harsher factor. */
  function Product(c: Config, p0: real, m: nat, a: nat): real
    requires a <= m
  {
    Times(p0, Times(Pow(c.down, m - a), Pow(c.aggressive, a)))
  }

  lemma {:induction false} UnflooredClosedForm(c: Config, p0: real, h: nat, m: nat)
    requires h < c.window
    ensures Unfloored(c, p0, h, m) == Product(c, p0, m, HarshCycles(c.window, h, m))
  {
    if m == 0 {
      DivModUnique(h, c.window, 0, h);
      TimesUnits(p0);
      TimesUnits(1.0);
    } else {
      UnflooredClosedForm(c, p0, h, m - 1);
      DivStep(h + m - 1, c.window);
      ProductStep(c, p0, m - 1, HarshCycles(c.window, h, m - 1));
    }
  }

  lemma ProductStep(c: Config, p0: real, m: nat, a: nat)
    requires a <= m
    ensures Product(c, p0, m + 1, a) == Times(Product(c, p0, m, a), c.down)
    ensures Product(c, p0, m + 1, a + 1) == Times(Product(c, p0, m, a), c.aggressive)
  {
    var d, g := Pow(c.down, m - a), Pow(c.aggressive, a);
    Regroup(p0, d, g, c.aggressive);
    Regroup(p0, d, g, c.down);
  }

  lemma Regroup(p: real, d: real, g: real, f: real)
    ensures Times(Times(p, Times(d, g)), f) == Times(p, Times(d, Times(f, g))) == Times(p, Times(Times(f, d), g))
  {
    TimesAssociate(p, Times(d, g), f);
    TimesCommute(Times(d, g), f);
    TimesAssociate(f, d, g);
    TimesAssociate(d, f, g);
    TimesCommute(f, d);
  }

  /** The probability after m overloaded cycles, limits applied in each. */
  function Lowered(c: Config, l: Limits, p0: real, h: nat, m: nat): real
    requires c.window > 0 && l.Valid()
  {
    if m == 0 then p0 else Scale(Lowered(c, l, p0, h, m - 1), Factor(c, (h + m - 1) % c.window), l)
  }

  /** What an overloaded cycle does to the counter and the probability. */
  lemma HighCycle(c: Config, l: Limits, s: State, u: real, next: real)
    requires c.Valid() && l.Valid() && s.highCount < c.window
    requires next == Scale(s.p, Factor(c, s.highCount), l)
    requires Cycle(c, l, s, Some(u), true).ewma > c.high
    ensures Cycle(c, l, s, Some(u), true).highCount == (if s.highCount + 1 == c.window then 0 else s.highCount + 1)
    ensures Cycle(c, l, s, Some(u), true).p == next
  {
    assert Smooth(c, s.ewma, u) > c.high;
  }

  lemma LoweredNext(c: Config, l: Limits, p0: real, h: nat, m: nat, s: State)
    requires c.window > 0 && l.Valid()
    requires s.p == Lowered(c, l, p0, h, m) && s.highCount == (h + m) % c.window
    ensures Lowered(c, l, p0, h, m + 1) == Scale(s.p, Factor(c, s.highCount), l)
  {
  }

  lemma {:induction false} AfterOverload(c: Config, l: Limits, s: State, us: seq<real>)
    requires c.Valid() && l.Valid() && Regular(c, l, s) && AllHigh(c, l, s, us)
    ensures After(c, l, s, us).highCount == (s.highCount + |us|) % c.window
    ensures After(c, l, s, us).p == Lowered(c, l, s.p, s.highCount, |us|)
  {
    var h := s.highCount;
    if us == [] {
      DivModUnique(h, c.window, 0, h);
    } else {
      var m := |us| - 1;
      AllHighPrefix(c, l, s, us, m);
      AfterOverload(c, l, s, us[..m]);
      assert us[..m + 1] == us;
      assert HighAfter(c, l, s, us, m + 1);
      DivStep(h + m, c.window);
      LoweredNext(c, l, s.p, h, m, After(c, l, s, us[..m]));
      HighCycle(c, l, After(c, l, s, us[..m]), us[m], Lowered(c, l, s.p, h, m + 1));
    }
  }

  /** What the counters of adjustments and drops show after sustained overload. */
  lemma {:induction false} OverloadCounted(c: Config, l: Limits, s: State, us: seq<real>)
    requires c.Valid() && l.Valid() && Regular(c, l, s) && AllHigh(c, l, s, us)
    ensures After(c, l, s, us).adjustments == s.adjustments + |us|
    ensures After(c, l, s, us).drops == s.drops + HarshCycles(c.window, s.highCount, |us|)
    ensures us != [] ==> After(c, l, s, us).lowCount == 0
  {
    var h := s.highCount;
    if us == [] {
      DivModUnique(h, c.window, 0, h);
    } else {
      var m := |us| - 1;
      AllHighPrefix(c, l, s, us, m);
      AfterOverload(c, l, s, us[..m]);
      OverloadCounted(c, l, s, us[..m]);
      assert us[..m + 1] == us && HighAfter(c, l, s, us, m + 1);
      DivStep(h + m, c.window);
      HighCounted(c, l, After(c, l, s, us[..m]), us[m]);
    }
  }

  lemma HighCounted(c: Config, l: Limits, s: State, u: real)
    requires c.Valid() && l.Valid() && s.highCount < c.window
    requires Cycle(c, l, s, Some(u), true).ewma > c.high
    ensures var s' := Cycle(c, l, s, Some(u), true);
      && s'.adjustments == s.adjustments + 1 && s'.lowCount == 0
      && s'.drops == s.drops + if s.highCount + 1 == c.window then 1 else 0
  {
    assert Smooth(c, s.ewma, u) > c.high;
  }

  /** Lowering a floored value and flooring again floors the lowered value. */
  lemma FlooredStep(l: Limits, x: real, y: real, f: real)
    requires l.Valid() && 0.0 < f < 1.0 && 0.0 <= x && y == Max(l.minP, x) && y <= l.maxP
    ensures 0.0 <= Times(x, f)
    ensures Scale(y, f, l) == Max(l.minP, Times(x, f)) <= l.maxP
  {
    Shrinks(x, f);
    Shrinks(l.minP, f);
  }

  lemma {:induction false} LoweredIsFloored(c: Config, l: Limits, p0: real, h: nat, m: nat)
    requires c.Valid() && l.Valid() && l.minP <= p0 <= l.maxP
    ensures 0.0 <= Unfloored(c, p0, h, m)
    ensures Lowered(c, l, p0, h, m) == Max(l.minP, Unfloored(c, p0, h, m)) <= l.maxP
  {
    if m == 0 {
    } else {
      LoweredIsFloored(c, l, p0, h, m - 1);
      FlooredStep(l, Unfloored(c, p0, h, m - 1), Lowered(c, l, p0, h, m - 1),
                  Factor(c, (h + m - 1) % c.window));
    }
  }

  lemma AllHighPrefix(c: Config, l: Limits, s: State, us: seq<real>, m: nat)
    requires l.Valid() && AllHigh(c, l, s, us) && m <= |us|
    ensures AllHigh(c, l, s, us[..m])
  {
    forall i | 0 < i <= m ensures HighAfter(c, l, s, us[..m], i) {
      assert HighAfter(c, l, s, us, i);
      assert us[..m][..i] == us[..i];
    }
  }

  /** Closed form of sustained overload: from a probability within its limits and a counter
      h below the window, m cycles with the smoothed utilisation above the high mark give
      max(MinP, p0 Down^(m - a) Aggr^a) with a = (h + m) div W, and the counter (h + m) mod W;
      m adjustments and a drops are counted. */
  lemma OverloadClosedForm(c: Config, l: Limits, s: State, us: seq<real>)
    requires c.Valid() && l.Valid() && Regular(c, l, s) && AllHigh(c, l, s, us)
    ensures After(c, l, s, us).highCount == (s.highCount + |us|) % c.window
    ensures var a := HarshCycles(c.window, s.highCount, |us|);
      && After(c, l, s, us).p == Max(l.minP, Product(c, s.p, |us|, a))
      && After(c, l, s, us).drops == s.drops + a
    ensures After(c, l, s, us).adjustments == s.adjustments + |us|
    ensures us != [] ==> After(c, l, s, us).lowCount == 0
  {
    AfterOverload(c, l, s, us);
    OverloadCounted(c, l, s, us);
    LoweredIsFloored(c, l, s.p, s.highCount, |us|);
    UnflooredClosedForm(c, s.p, s.highCount, |us|);
  }

  // ----- reaching the floor -----

  /** The number of cycles after which a value within `gap` of u is within `room` of it. */
  function CyclesWithin(gap: real, room: real, alpha: real): nat
    requires room > 0.0 && alpha > 0.0
  {
    TimesPositive(room, alpha);
    if gap < 0.0 then 0 else (gap / Times(room, alpha)).Floor + 1
  }

  /** m shrinkings by 1 - alpha bring `gap` below `room` once m passes the computed number. */
  lemma Within(gap: real, room: real, alpha: real, m: nat)
    requires 0.0 <= gap && room > 0.0 && 0.0 < alpha <= 1.0
    requires m >= CyclesWithin(gap, room, alpha)
    ensures Times(Pow(1.0 - alpha, m), gap) < room
  {
    TimesPositive(room, alpha);
    BeyondQuotient(gap, Times(room, alpha), m);
    PowFalls(alpha, m);
    PowRange(1.0 - alpha, m);
    Expand(m as real, room, alpha);
    SmallProduct(Pow(1.0 - alpha, m), gap, room, 1.0 + Times(m as real, alpha));
  }

  lemma Expand(m: real, room: real, alpha: real)
    ensures Times(room, 1.0 + Times(m, alpha)) == room + Times(m, Times(room, alpha))
  {
    assert room * (m * alpha) == m * (room * alpha);
  }

  /** n beyond x / y means n y beyond x. */
  lemma BeyondQuotient(x: real, y: real, n: nat)
    requires y > 0.0 && n > (x / y).Floor
    ensures Times(n as real, y) > x
  {
    assert n as real > x / y;
    TimesPositive(n as real - x / y, y);
  }

  lemma SmallProduct(q: real, gap: real, room: real, k: real)
    requires 0.0 <= q && 0.0 < room && gap < Times(room, k) && Times(q, k) <= 1.0
    ensures Times(q, gap) < room
  {
    if q == 0.0 {
      TimesUnits(gap);
    } else {
      TimesPositive(q, Times(room, k) - gap);
      TimesMonotone(Times(q, k), 1.0, room);
      TimesUnits(room);
      assert q * (room * k) == q * k * room;
    }
  }

  lemma NoticedAfter(c: Config, l: Limits, s: State, u: real, m: nat)
    requires c.Valid() && l.Valid() && u > c.high
    requires m >= CyclesWithin(u - s.ewma, u - c.high, c.alpha)
    ensures After(c, l, s, Constant(u, m)).ewma > c.high
  {
    ErrorShrinks(c, l, s, u, m);
    DecayedAbove(c.alpha, s.ewma, u, c.high, m);
  }

  lemma DecayedAbove(alpha: real, start: real, u: real, high: real, m: nat)
    requires 0.0 < alpha <= 1.0 && u > high
    requires m >= CyclesWithin(u - start, u - high, alpha)
    ensures Decayed(alpha, start, u, m) > high
  {
    var q := Pow(1.0 - alpha, m);
    PowRange(1.0 - alpha, m);
    if start > u {
      TimesMonotone(0.0, q, start - u);
      TimesUnits(start - u);
    } else {
      Within(u - start, u - high, alpha, m);
      TimesNegated(q, u - start);
    }
  }

  lemma TimesNegated(x: real, y: real)
    ensures Times(x, -y) == -Times(x, y)
  {
  }

  /** After enough overloaded cycles the unfloored probability is below the floor. */
  lemma UnflooredBelow(c: Config, l: Limits, p0: real, h: nat, m: nat)
    requires c.Valid() && l.Valid() && l.minP > 0.0 && 0.0 <= p0 <= l.maxP && h < c.window
    requires m >= CyclesWithin(l.maxP, l.minP, 1.0 - Max(c.down, c.aggressive))
    ensures Unfloored(c, p0, h, m) <= l.minP
  {
    UnflooredBound(c, p0, h, m);
    var q := Pow(Max(c.down, c.aggressive), m);
    PowRange(Max(c.down, c.aggressive), m);
    Within(l.maxP, l.minP, 1.0 - Max(c.down, c.aggressive), m);
    TimesMonotone(p0, l.maxP, q);
    TimesCommute(l.maxP, q);
  }

  lemma {:induction false} UnflooredBound(c: Config, p0: real, h: nat, m: nat)
    requires c.Valid() && 0.0 <= p0
    ensures 0.0 <= Unfloored(c, p0, h, m) <= Times(p0, Pow(Max(c.down, c.aggressive), m))
  {
    if m == 0 {
      TimesUnits(p0);
    } else {
      UnflooredBound(c, p0, h, m - 1);
      var q := Max(c.down, c.aggressive);
      BoundStep(Unfloored(c, p0, h, m - 1), p0, Pow(q, m - 1), Factor(c, (h + m - 1) % c.window), q);
    }
  }

  lemma BoundStep(x: real, p: real, y: real, f: real, q: real)
    requires 0.0 <= x <= Times(p, y) && 0.0 <= f <= q
    ensures 0.0 <= Times(x, f) <= Times(p, Times(q, y))
  {
    TimesMonotone(0.0, x, f);
    TimesUnits(f);
    TimesMonotone(x, Times(p, y), f);
    TimesMonotone(f, q, Times(p, y));
    TimesAssociate(p, y, q);
    TimesCommute(y, q);
  }

  lemma LoweredToFloor(c: Config, l: Limits, p0: real, h: nat, m: nat)
    requires c.Valid() && l.Valid() && 0.0 < l.minP <= p0 <= l.maxP && h < c.window
    requires m >= CyclesWithin(l.maxP, l.minP, 1.0 - Max(c.down, c.aggressive))
    ensures Lowered(c, l, p0, h, m) == l.minP
  {
    LoweredIsFloored(c, l, p0, h, m);
    UnflooredBelow(c, l, p0, h, m);
  }

  /** The number of cycles by which a constant overload has brought the probability to its floor. */
  function CyclesToFloor(c: Config, l: Limits, ewma: real, u: real): nat
    requires c.Valid() && l.Valid() && l.minP > 0.0 && u > c.high
  {
    CyclesWithin(u - ewma, u - c.high, c.alpha) + CyclesWithin(l.maxP, l.minP, 1.0 - Max(c.down, c.aggressive))
  }

  lemma AfterTwoStretches(c: Config, l: Limits, s: State, u: real, m: nat, n: nat)
    requires l.Valid()
    ensures After(c, l, s, Constant(u, m + n)) == After(c, l, After(c, l, s, Constant(u, m)), Constant(u, n))
  {
    assert Constant(u, m + n) == Constant(u, m) + Constant(u, n);
    AfterConcat(c, l, s, Constant(u, m), Constant(u, n));
  }

  lemma HighOnceNoticed(c: Config, l: Limits, s: State, u: real, first: nat, rest: nat)
    requires c.Valid() && l.Valid() && u > c.high
    requires first == CyclesWithin(u - s.ewma, u - c.high, c.alpha)
    ensures AllHigh(c, l, After(c, l, s, Constant(u, first)), Constant(u, rest))
  {
    forall i | 0 < i <= rest
      ensures HighAfter(c, l, After(c, l, s, Constant(u, first)), Constant(u, rest), i)
    {
      assert Constant(u, rest)[..i] == Constant(u, i);
      AfterTwoStretches(c, l, s, u, first, i);
      NoticedAfter(c, l, s, u, first + i);
    }
  }

  /** Under a constant utilisation above the mark the probability reaches its floor within a
      number of cycles computable beforehand, and stays there. */
  lemma FloorReached(c: Config, l: Limits, s: State, u: real, m: nat)
    requires c.Valid() && l.Valid() && l.minP > 0.0 && Regular(c, l, s) && u > c.high
    requires m >= CyclesToFloor(c, l, s.ewma, u)
    ensures After(c, l, s, Constant(u, m)).p == l.minP
  {
    var first := CyclesWithin(u - s.ewma, u - c.high, c.alpha);
    var rest := m - first;
    var mid := After(c, l, s, Constant(u, first));
    StaysRegular(c, l, s, Constant(u, first));
    AfterTwoStretches(c, l, s, u, first, rest);
    HighOnceNoticed(c, l, s, u, first, rest);
    AfterOverload(c, l, mid, Constant(u, rest));
    LoweredToFloor(c, l, mid.p, mid.highCount, rest);
  }

  // ----- low load -----

  /** Low load keeps or raises the probability exactly if the up factor is at least 1 or the
      probability is at its lower limit: above the limit a factor below 1, which the
      configuration check accepts, lowers it. */
  lemma LowLoadRaisesIff(c: Config, l: Limits, s: State, u: real)
    requires c.Valid() && l.Valid() && Regular(c, l, s)
    requires Smooth(c, s.ewma, u) < c.low
    ensures Cycle(c, l, s, Some(u), true).p >= s.p <==> c.up >= 1.0 || s.p == l.minP
  {
    if l.minP < s.p {
      ScaledUpIff(s.p, c.up, l);
    }
    assert Cycle(c, l, s, Some(u), true).p == Scale(s.p, c.up, l);
  }

  lemma ScaledUpIff(p: real, f: real, l: Limits)
    requires l.Valid() && l.minP < p <= l.maxP && f > 0.0
    ensures Scale(p, f, l) >= p <==> f >= 1.0
  {
    if f >= 1.0 {
      TimesMonotone(1.0, f, p);
      TimesUnits(p);
    } else {
      TimesPositive(1.0 - f, p);
      assert Times(p, f) < p;
    }
  }

  ghost predicate LowAfter(c: Config, l: Limits, s: State, us: seq<real>, i: nat)
    requires l.Valid() && i <= |us|
  {
    After(c, l, s, us[..i]).ewma < c.low
  }

  /** The smoothed utilisation is below the low mark in every one of the cycles. */
  ghost predicate AllLow(c: Config, l: Limits, s: State, us: seq<real>)
    requires l.Valid()
  {
    forall i :: 0 < i <= |us| ==> LowAfter(c, l, s, us, i)
  }

  lemma AllLowPrefix(c: Config, l: Limits, s: State, us: seq<real>, m: nat)
    requires l.Valid() && AllLow(c, l, s, us) && m <= |us|
    ensures AllLow(c, l, s, us[..m])
  {
    forall i | 0 < i <= m ensures LowAfter(c, l, s, us[..m], i) {
      assert LowAfter(c, l, s, us, i);
      assert us[..m][..i] == us[..i];
    }
  }

  /** p0 multiplied by the up factor in each of m cycles, with nothing to hold it. */
  function Raised(c: Config, p0: real, m: nat): real {
    Times(p0, Pow(c.up, m))
  }

  /** A value that the factor moves away from one limit can only meet the other. */
  ghost predicate OneLimit(x: real, f: real, l: Limits) {
    0.0 <= x && if f >= 1.0 then x >= l.minP else x <= l.maxP
  }

  lemma ClampedStep(x: real, f: real, l: Limits)
    requires l.Valid() && f > 0.0 && OneLimit(x, f, l)
    ensures OneLimit(Times(x, f), f, l)
    ensures Scale(Clamp(x, l), f, l) == Clamp(Times(x, f), l)
  {
    Stretches(x, f);
    Stretches(l.minP, f);
    Stretches(l.maxP, f);
  }

  lemma Stretches(x: real, f: real)
    requires 0.0 <= x && f > 0.0
    ensures 0.0 <= Times(x, f)
    ensures if f >= 1.0 then Times(x, f) >= x else Times(x, f) <= x
  {
    TimesUnits(x);
    TimesCommute(x, f);
    if f >= 1.0 {
      TimesMonotone(1.0, f, x);
    } else {
      TimesMonotone(f, 1.0, x);
    }
    TimesMonotone(0.0, f, x);
  }

  lemma RaisedNext(c: Config, p0: real, m: nat)
    ensures Raised(c, p0, m + 1) == Times(Raised(c, p0, m), c.up)
  {
    TimesAssociate(p0, Pow(c.up, m), c.up);
    TimesCommute(Pow(c.up, m), c.up);
  }

  lemma LowCycle(c: Config, l: Limits, s: State, u: real)
    requires c.Valid() && l.Valid() && Cycle(c, l, s, Some(u), true).ewma < c.low
    ensures var s' := Cycle(c, l, s, Some(u), true);
      && s'.highCount == 0 && s'.lowCount == s.lowCount + 1 && s'.p == Scale(s.p, c.up, l)
      && s'.adjustments == s.adjustments + 1 && s'.drops == s.drops
  {
    assert Smooth(c, s.ewma, u) < c.low;
  }

  /** Closed form of sustained low load: m cycles with the smoothed utilisation below the low
      mark give p0 Up^m within the limits, whether the factor raises or lowers. */
  lemma {:induction false} LowLoadClosedForm(c: Config, l: Limits, s: State, us: seq<real>)
    requires c.Valid() && l.Valid() && Regular(c, l, s) && AllLow(c, l, s, us)
    ensures After(c, l, s, us).p == Clamp(Raised(c, s.p, |us|), l) && OneLimit(Raised(c, s.p, |us|), c.up, l)
    ensures After(c, l, s, us).lowCount == s.lowCount + |us|
    ensures After(c, l, s, us).adjustments == s.adjustments + |us| && After(c, l, s, us).drops == s.drops
    ensures us != [] ==> After(c, l, s, us).highCount == 0
  {
    if us == [] {
      TimesUnits(s.p);
    } else {
      var m := |us| - 1;
      AllLowPrefix(c, l, s, us, m);
      LowLoadClosedForm(c, l, s, us[..m]);
      assert us[..m + 1] == us && LowAfter(c, l, s, us, m + 1);
      LowCycle(c, l, After(c, l, s, us[..m]), us[m]);
      ClampedStep(Raised(c, s.p, m), c.up, l);
      RaisedNext(c, s.p, m);
    }
  }

  // ----- between the marks, and without effect -----

  ghost predicate BetweenAfter(c: Config, l: Limits, s: State, us: seq<real>, i: nat)
    requires l.Valid() && i <= |us|
  {
    c.low <= After(c, l, s, us[..i]).ewma <= c.high
  }

  /** The smoothed utilisation is between the marks in every one of the cycles. */
  ghost predicate AllBetween(c: Config, l: Limits, s: State, us: seq<real>)
    requires l.Valid()
  {
    forall i :: 0 < i <= |us| ==> BetweenAfter(c, l, s, us, i)
  }

  /** As long as the smoothed utilisation stays between the marks nothing is adjusted: the
      probability and the totals stay as they were, and both counters are cleared. */
  lemma {:induction false} BetweenKeeps(c: Config, l: Limits, s: State, us: seq<real>)
    requires c.Valid() && l.Valid() && Regular(c, l, s) && AllBetween(c, l, s, us)
    ensures var s' := After(c, l, s, us);
      && s'.p == s.p && s'.adjustments == s.adjustments && s'.drops == s.drops
      && (us != [] ==> s'.highCount == 0 && s'.lowCount == 0)
  {
    if us == [] {
    } else {
      var m := |us| - 1;
      forall i | 0 < i <= m ensures BetweenAfter(c, l, s, us[..m], i) {
        assert BetweenAfter(c, l, s, us, i) && us[..m][..i] == us[..i];
      }
      BetweenKeeps(c, l, s, us[..m]);
      assert us[..m + 1] == us && BetweenAfter(c, l, s, us, m + 1);
    }
  }

  /** A failed scrape changes nothing, and without a registered sampler only the smoothed value
      moves, by its share alpha towards the utilisation. */
  lemma NothingAdjusted(c: Config, l: Limits, s: State, u: real, registered: bool)
    requires c.Valid() && l.Valid()
    ensures Cycle(c, l, s, None, registered) == s
    ensures Cycle(c, l, s, Some(u), false) == s.(ewma := s.ewma + Times(c.alpha, u - s.ewma))
  {
  }

  // ----- the objects -----

  /** The sampler side: one shared probability, kept within its limits. */
  class AdaptiveSampler {
    const limits: Limits
    var currentP: real

    constructor (limits: Limits, initial: real)
      ensures this.limits == limits && currentP == initial
    {
      this.limits, currentP := limits, initial;
    }

    method SetValue(key: string, value: real)
      requires limits.Valid()
      modifies this
      ensures currentP == if key == "probability" then Clamp(value, limits) else old(currentP)
    {
      if key == "probability" {
        var newP := value;
        if newP < limits.minP {
          newP := limits.minP;
        }
        if newP > limits.maxP {
          newP := limits.maxP;
        }
        currentP := newP;
      }
    }

    function GetValue(key: string): real
      reads this
    {
      if key == "probability" then currentP else 0.0
    }
  }

  class Controller {
    const config: Config
    var ewma: real
    var highCount: nat
    var lowCount: nat
    var adjustmentCount: nat
    var aggressiveDropCount: nat
    var currentQueueUtilization: real

    constructor (config: Config)
      ensures this.config == config && ewma == 0.0 && highCount == 0 && lowCount == 0
      ensures adjustmentCount == 0 && aggressiveDropCount == 0
    {
      this.config := config;
      ewma, highCount, lowCount, adjustmentCount, aggressiveDropCount := 0.0, 0, 0, 0, 0;
      currentQueueUtilization := 0.0;
    }

    ghost function AsState(p: real): State
      reads this
    {
      State(ewma, highCount, lowCount, adjustmentCount, aggressiveDropCount, p)
    }

    /** One control cycle against the sampler found in the registry, if any. */
    method RunControlCycle(utilization: Option<real>, tunable: AdaptiveSampler?)
      requires tunable != null ==> tunable.limits.Valid()
      modifies this, tunable
      ensures tunable != null ==>
        AsState(tunable.currentP)
        == Cycle(config, tunable.limits, old(AsState(tunable.currentP)), utilization, true)
      ensures tunable == null ==> forall p, l: Limits :: l.Valid() ==>
        AsState(p) == Cycle(config, l, old(AsState(p)), utilization, false)
      ensures currentQueueUtilization == if utilization.Some? then utilization.value else old(currentQueueUtilization)
    {
      if utilization.None? {
        return;
      }
      currentQueueUtilization := utilization.value;
      var newEWMA := Smooth(config, ewma, utilization.value);
      ewma := newEWMA;
      if tunable == null {
        return;
      }
      var currentP := tunable.GetValue("probability");
      var newP;
      var madeAdjustment := false;
      if newEWMA > config.high {
        highCount := highCount + 1;
        lowCount := 0;
        madeAdjustment := true;
        if highCount >= config.window {
          newP := Times(currentP, config.aggressive);
          aggressiveDropCount := aggressiveDropCount + 1;
        } else {
          newP := Times(currentP, config.down);
        }
      } else if newEWMA < config.low {
        lowCount := lowCount + 1;
        highCount := 0;
        madeAdjustment := true;
        newP := Times(currentP, config.up);
      } else {
        highCount, lowCount := 0, 0;
        newP := currentP;
      }
      tunable.SetValue("probability", newP);
      if madeAdjustment {
        adjustmentCount := adjustmentCount + 1;
      }
      if highCount >= config.window {
        highCount := 0;
      }
    }
  }
}
