/** The random gate of the reservoir, counted over every sequence of draws.

    Trace number i > k draws a number below i and is accepted if it is below k.  The design
    replaces the drawn slot, which gives every trace the same share k/n of the draw
    sequences.  The code appends to the active buffer instead; the last section says
    exactly when that still gives the promised share. */
module AlgorithmR {
  import opened ActiveBuffer
  import opened Arithmetic
  import opened Seqs

  /** Whether trace number `i` (counted from 1) enters the reservoir on drawing `r`. */
  predicate Accepts(i: nat, k: nat, r: nat) {
    i <= k || r < k
  }

  function Snoc(d: seq<nat>, r: nat): seq<nat> {
    d + [r]
  }

  ghost function Range(n: nat): (rs: set<nat>)
    ensures forall r: nat :: r in rs <==> r < n
    ensures |rs| == n
  {
    if n == 0 then {} else Range(n - 1) + {n - 1}
  }

  /** Every sequence of draws made while `n` traces arrive: one draw for each trace after
      the k-th, the draw for trace i below i. */
  ghost function AllDraws(k: nat, n: nat): set<seq<nat>>
    decreases n
  {
    if n <= k then {[]}
    else set d, r | d in AllDraws(k, n - 1) && r in Range(n) :: Snoc(d, r)
  }

  lemma {:induction false} AllDrawsExact(k: nat, n: nat, d: seq<nat>)
    requires n >= k
    ensures d in AllDraws(k, n) <==> |d| == n - k && forall j :: 0 <= j < |d| ==> d[j] < k + 1 + j
    decreases n
  {
    if n == k {
    } else if d == [] {
      LastDraw(k, n, d);
    } else {
      AllDrawsExact(k, n - 1, d[..|d| - 1]);
      LastDraw(k, n, d);
    }
  }

  lemma LastDraw(k: nat, n: nat, d: seq<nat>)
    requires n > k
    ensures d in AllDraws(k, n) <==> d != [] && d[..|d| - 1] in AllDraws(k, n - 1) && d[|d| - 1] < n
  {
    if d in AllDraws(k, n) {
      var x, y :| x in AllDraws(k, n - 1) && y in Range(n) && Snoc(x, y) == d;
      assert d[..|d| - 1] == x;
    }
    if d != [] && d[..|d| - 1] in AllDraws(k, n - 1) && d[|d| - 1] < n {
      assert d == Snoc(d[..|d| - 1], d[|d| - 1]) && d[|d| - 1] in Range(n);
    }
  }

  // ----- counting extensions by one draw -----

  ghost function GoodDraws(ok: (seq<nat>, nat) -> bool, d: seq<nat>, n: nat): set<nat> {
    set r | r in Range(n) && ok(d, r)
  }

  ghost function Image(d: seq<nat>, rs: set<nat>): set<seq<nat>> {
    set r | r in rs :: Snoc(d, r)
  }

  ghost function Extended(s: set<seq<nat>>, ok: (seq<nat>, nat) -> bool, n: nat): set<seq<nat>> {
    set d, r | d in s && r in GoodDraws(ok, d, n) :: Snoc(d, r)
  }

  ghost function Where(s: set<seq<nat>>, p: seq<nat> -> bool): set<seq<nat>> {
    set d | d in s && p(d)
  }

  lemma SnocInjective(d: seq<nat>, r: nat, d': seq<nat>, r': nat)
    requires Snoc(d, r) == Snoc(d', r')
    ensures d == d' && r == r'
  {
    var x, y := Snoc(d, r), Snoc(d', r');
    assert x[..|x| - 1] == d && y[..|y| - 1] == d';
    assert x[|x| - 1] == r && y[|y| - 1] == r';
  }

  lemma {:induction false} ImageSize(d: seq<nat>, rs: set<nat>)
    ensures |Image(d, rs)| == |rs|
    decreases rs
  {
    if rs == {} {
    } else {
      var x :| x in rs;
      ImageSize(d, rs - {x});
      assert Image(d, rs) == Image(d, rs - {x}) + {Snoc(d, x)};
      forall r | r in rs - {x} ensures Snoc(d, r) != Snoc(d, x) {
        if Snoc(d, r) == Snoc(d, x) {
          SnocInjective(d, r, d, x);
        }
      }
    }
  }

  lemma ExtendedSplit(s: set<seq<nat>>, x: seq<nat>, ok: (seq<nat>, nat) -> bool, n: nat)
    requires x in s
    ensures Extended(s, ok, n) == Extended(s - {x}, ok, n) + Image(x, GoodDraws(ok, x, n))
    ensures Extended(s - {x}, ok, n) !! Image(x, GoodDraws(ok, x, n))
  {
    var rest, image := Extended(s - {x}, ok, n), Image(x, GoodDraws(ok, x, n));
    if e :| e in rest && e in image {
      var d, r :| d in s - {x} && r in GoodDraws(ok, d, n) && Snoc(d, r) == e;
      var r' :| r' in GoodDraws(ok, x, n) && Snoc(x, r') == e;
      SnocInjective(d, r, x, r');
    }
  }

  lemma OneMoreSequence(s: set<seq<nat>>, x: seq<nat>, ok: (seq<nat>, nat) -> bool, n: nat)
    requires x in s
    ensures |Extended(s, ok, n)| == |Extended(s - {x}, ok, n)| + |GoodDraws(ok, x, n)|
  {
    ExtendedSplit(s, x, ok, n);
    ImageSize(x, GoodDraws(ok, x, n));
  }

  /** If every sequence in `s` can be extended in exactly `c` ways, there are c * |s| extensions. */
  lemma {:induction false} ExtendedSize(s: set<seq<nat>>, ok: (seq<nat>, nat) -> bool, n: nat, c: nat)
    requires forall d :: d in s ==> |GoodDraws(ok, d, n)| == c
    ensures |Extended(s, ok, n)| == Product(c, |s|)
    decreases s
  {
    if s == {} {
      assert Extended(s, ok, n) == {};
      ProductUnits(c);
    } else {
      var x :| x in s;
      OneMoreSequence(s, x, ok, n);
      ExtendedSize(s - {x}, ok, n, c);
      ProductPlus(c, |s - {x}|);
    }
  }

  ghost function Anything(): (seq<nat>, nat) -> bool {
    (d: seq<nat>, r: nat) => true
  }

  ghost function Below(k: nat): (seq<nat>, nat) -> bool {
    (d: seq<nat>, r: nat) => r < k
  }

  ghost function AtLeast(k: nat): (seq<nat>, nat) -> bool {
    (d: seq<nat>, r: nat) => r >= k
  }

  lemma AllDrawsStep(k: nat, n: nat)
    requires n > k
    ensures |AllDraws(k, n)| == Product(n, |AllDraws(k, n - 1)|)
  {
    var all := AllDraws(k, n - 1);
    forall d | d in all ensures |GoodDraws(Anything(), d, n)| == n {
      AnyDraws(d, n);
    }
    ExtendedSize(all, Anything(), n, n);
    assert AllDraws(k, n) == Extended(all, Anything(), n);
  }

  /** The number of draw sequences. */
  function AllCount(k: nat, n: nat): nat {
    if n <= k then 1 else Product(n, AllCount(k, n - 1))
  }

  lemma {:induction false} AllDrawsCount(k: nat, n: nat)
    requires n >= k
    ensures |AllDraws(k, n)| == AllCount(k, n)
    decreases n
  {
    if n == k {
    } else {
      calc {
        |AllDraws(k, n)|;
        { AllDrawsStep(k, n); }
        Product(n, |AllDraws(k, n - 1)|);
        { AllDrawsCount(k, n - 1); }
        Product(n, AllCount(k, n - 1));
        AllCount(k, n);
      }
    }
  }

  lemma {:induction false} AllCountPositive(k: nat, n: nat)
    ensures AllCount(k, n) >= 1
    decreases n
  {
    if n <= k {
    } else {
      AllCountPositive(k, n - 1);
      ProductIs(n, AllCount(k, n - 1));
      ProductAtLeast(n, AllCount(k, n - 1));
    }
  }

  /** There is at least one sequence of draws, so that a share of them means something. */
  lemma SomeDraws(k: nat, n: nat)
    requires n >= k
    ensures |AllDraws(k, n)| >= 1
  {
    AllDrawsCount(k, n);
    AllCountPositive(k, n);
  }

  /** The number of draw sequences with a property. */
  ghost function Count(k: nat, n: nat, p: seq<nat> -> bool): nat {
    |Where(AllDraws(k, n), p)|
  }

  lemma WhereExtends(k: nat, n: nat, p: seq<nat> -> bool, q: seq<nat> -> bool, ok: (seq<nat>, nat) -> bool)
    requires n > k
    requires forall d, r :: d in AllDraws(k, n - 1) && r in Range(n) ==> (p(Snoc(d, r)) <==> q(d) && ok(d, r))
    ensures Where(AllDraws(k, n), p) == Extended(Where(AllDraws(k, n - 1), q), ok, n)
  {
  }

  /** One more arrival: if a property after it means an earlier property and one of `c` draws,
      the number of draw sequences with the property grows by the factor `c`. */
  lemma CountStep(k: nat, n: nat, p: seq<nat> -> bool, q: seq<nat> -> bool,
                  ok: (seq<nat>, nat) -> bool, c: nat)
    requires n > k
    requires forall d, r :: d in AllDraws(k, n - 1) && r in Range(n) ==> (p(Snoc(d, r)) <==> q(d) && ok(d, r))
    requires forall d :: d in AllDraws(k, n - 1) && q(d) ==> |GoodDraws(ok, d, n)| == c
    ensures Count(k, n, p) == Product(c, Count(k, n - 1, q))
  {
    var before := Where(AllDraws(k, n - 1), q);
    WhereExtends(k, n, p, q, ok);
    ExtendedSize(before, ok, n, c);
  }

  /** The numbers of the first `k` traces. */
  function FirstTraces(k: nat): (traces: seq<nat>)
    ensures |traces| == k
    ensures forall i :: 0 <= i < k ==> traces[i] == i + 1
  {
    seq(k, i => i + 1)
  }

  // ----- the gate -----

  ghost function AcceptsTrace(k: nat, m: nat): seq<nat> -> bool
    requires k < m
  {
    d => m - k - 1 < |d| && Accepts(m, k, d[m - k - 1])
  }

  ghost function AcceptedOnArrival(k: nat, n: nat, m: nat): set<seq<nat>>
    requires k < m <= n
  {
    Where(AllDraws(k, n), AcceptsTrace(k, m))
  }

  lemma DrawOf(k: nat, n: nat, m: nat, d: seq<nat>, r: nat)
    requires k < m <= n + 1 && d in AllDraws(k, n)
    ensures AcceptsTrace(k, m)(Snoc(d, r)) <==> if m == n + 1 then r < k else AcceptsTrace(k, m)(d)
  {
    AllDrawsExact(k, n, d);
  }

  lemma AnyDraws(d: seq<nat>, n: nat)
    ensures |GoodDraws(Anything(), d, n)| == n
  {
    assert GoodDraws(Anything(), d, n) == Range(n);
  }

  lemma BelowDraws(d: seq<nat>, k: nat, n: nat)
    requires k <= n
    ensures |GoodDraws(Below(k), d, n)| == k
  {
    assert GoodDraws(Below(k), d, n) == Range(k);
  }

  lemma AtLeastDraws(d: seq<nat>, k: nat, n: nat)
    requires k <= n
    ensures |GoodDraws(AtLeast(k), d, n)| == n - k
  {
    var good := GoodDraws(AtLeast(k), d, n);
    assert Range(n) == good + Range(k);
    assert good !! Range(k);
  }

  lemma ArrivalNow(k: nat, n: nat)
    requires k < n
    ensures |AcceptedOnArrival(k, n, n)| == Product(k, |AllDraws(k, n - 1)|)
  {
    var all := AllDraws(k, n - 1);
    forall d, r: nat | d in all ensures AcceptsTrace(k, n)(Snoc(d, r)) <==> r < k {
      DrawOf(k, n - 1, n, d, r);
    }
    forall d | d in all ensures |GoodDraws(Below(k), d, n)| == k {
      BelowDraws(d, k, n);
    }
    CountStep(k, n, AcceptsTrace(k, n), d => true, Below(k), k);
    assert Where(all, d => true) == all;
  }

  lemma ArrivalEarlier(k: nat, n: nat, m: nat)
    requires k < m < n
    ensures |AcceptedOnArrival(k, n, m)| == Product(n, |AcceptedOnArrival(k, n - 1, m)|)
  {
    var all := AllDraws(k, n - 1);
    forall d, r: nat | d in all ensures AcceptsTrace(k, m)(Snoc(d, r)) <==> AcceptsTrace(k, m)(d) {
      DrawOf(k, n - 1, m, d, r);
    }
    forall d | d in all ensures |GoodDraws(Anything(), d, n)| == n {
      AnyDraws(d, n);
    }
    CountStep(k, n, AcceptsTrace(k, m), AcceptsTrace(k, m), Anything(), n);
  }

  function ArrivalCount(k: nat, n: nat, m: nat): nat
    requires n >= m >= 1
  {
    if n == m then Product(k, AllCount(k, n - 1)) else Product(n, ArrivalCount(k, n - 1, m))
  }

  lemma ArrivalCountedNow(k: nat, n: nat)
    requires k < n
    ensures |AcceptedOnArrival(k, n, n)| == ArrivalCount(k, n, n)
  {
    calc {
      |AcceptedOnArrival(k, n, n)|;
      { ArrivalNow(k, n); }
      Product(k, |AllDraws(k, n - 1)|);
      { AllDrawsCount(k, n - 1); }
      Product(k, AllCount(k, n - 1));
      ArrivalCount(k, n, n);
    }
  }

  lemma ArrivalCountedLater(k: nat, n: nat, m: nat)
    requires k < m < n && |AcceptedOnArrival(k, n - 1, m)| == ArrivalCount(k, n - 1, m)
    ensures |AcceptedOnArrival(k, n, m)| == ArrivalCount(k, n, m)
  {
    ArrivalEarlier(k, n, m);
    assert |AcceptedOnArrival(k, n, m)| == Product(n, ArrivalCount(k, n - 1, m));
  }

  lemma {:induction false} ArrivalsCounted(k: nat, n: nat, m: nat)
    requires k < m <= n
    ensures |AcceptedOnArrival(k, n, m)| == ArrivalCount(k, n, m)
    decreases n
  {
    if n == m {
      ArrivalCountedNow(k, n);
    } else {
      ArrivalsCounted(k, n - 1, m);
      ArrivalCountedLater(k, n, m);
    }
  }

  lemma {:induction false} ArrivalCountShare(k: nat, n: nat, m: nat)
    requires k < m <= n
    ensures Product(m, ArrivalCount(k, n, m)) == Product(k, AllCount(k, n))
    decreases n
  {
    if n == m {
      ProductExchange(n, k, AllCount(k, n - 1));
    } else {
      ArrivalCountShare(k, n - 1, m);
      ProductExchange(m, n, ArrivalCount(k, n - 1, m));
      ProductExchange(k, n, AllCount(k, n - 1));
    }
  }

  /** Trace m > k is accepted on arrival in exactly a k/m share of the draw sequences. */
  lemma ArrivalShare(k: nat, n: nat, m: nat)
    requires k < m <= n
    ensures m * |AcceptedOnArrival(k, n, m)| == k * |AllDraws(k, n)|
  {
    ArrivalsCounted(k, n, m);
    AllDrawsCount(k, n);
    ArrivalCountShare(k, n, m);
    ProductIs(m, ArrivalCount(k, n, m));
    ProductIs(k, AllCount(k, n));
  }

  // ----- the design: the drawn slot is replaced -----

  /** The trace held in each slot once the first `k` traces filled the reservoir and the
      draws in `d` were made. */
  function Slots(k: nat, d: seq<nat>): (slots: seq<nat>)
    ensures |slots| == k
  {
    if d == [] then FirstTraces(k)
    else
      var before := Slots(k, d[..|d| - 1]);
      var r := d[|d| - 1];
      if r < k then before[r := k + |d|] else before
  }

  /** The reservoir always holds k distinct traces of those seen so far. */
  lemma {:induction false} SlotsDistinct(k: nat, d: seq<nat>)
    ensures forall i :: 0 <= i < k ==> 1 <= Slots(k, d)[i] <= k + |d|
    ensures forall i, j :: 0 <= i < j < k ==> Slots(k, d)[i] != Slots(k, d)[j]
  {
    if d == [] {
    } else {
      SlotsDistinct(k, d[..|d| - 1]);
    }
  }

  ghost function HoldsTrace(k: nat, j: nat): seq<nat> -> bool {
    d => j in Slots(k, d)
  }

  ghost function SlotSurvivors(k: nat, n: nat, j: nat): set<seq<nat>>
    requires n >= k
  {
    Where(AllDraws(k, n), HoldsTrace(k, j))
  }

  ghost function Spares(k: nat, j: nat): (seq<nat>, nat) -> bool {
    (d: seq<nat>, r: nat) => r < k ==> Slots(k, d)[r] != j
  }

  /** One more draw: the newcomer is held if its draw is below k, an older trace if it was
      held and its slot was not drawn. */
  lemma HoldsAfterDraw(k: nat, d: seq<nat>, r: nat, j: nat)
    requires 1 <= j <= k + |d| + 1
    ensures HoldsTrace(k, j)(Snoc(d, r))
       <==> if j == k + |d| + 1 then r < k else HoldsTrace(k, j)(d) && Spares(k, j)(d, r)
  {
    var slots, x := Slots(k, d), k + |d| + 1;
    assert Snoc(d, r)[..|d|] == d;
    SlotsDistinct(k, d);
    if r < k {
      assert Slots(k, Snoc(d, r)) == slots[r := x];
      assert slots[r := x][r] == x;
      if j != x && j in slots && slots[r] != j {
        var p :| 0 <= p < k && slots[p] == j;
        assert slots[r := x][p] == j;
      }
    }
  }

  lemma SparingDraws(k: nat, d: seq<nat>, n: nat, j: nat)
    requires n >= k && j in Slots(k, d)
    ensures |GoodDraws(Spares(k, j), d, n + 1)| == n
  {
    var p :| 0 <= p < k && Slots(k, d)[p] == j;
    forall r: nat ensures Spares(k, j)(d, r) <==> r != p {
      SlotsDistinct(k, d);
    }
    AllButOne(GoodDraws(Spares(k, j), d, n + 1), n + 1, p);
  }

  lemma AllButOne(s: set<nat>, n: nat, p: nat)
    requires p < n && forall r: nat :: r in s <==> r < n && r != p
    ensures |s| == n - 1
  {
    assert s == Range(n) - {p};
  }

  lemma OldTraceExtended(k: nat, n: nat, j: nat)
    requires n > k >= 1 && 1 <= j < n
    ensures Where(AllDraws(k, n), HoldsTrace(k, j))
         == Extended(Where(AllDraws(k, n - 1), HoldsTrace(k, j)), Spares(k, j), n)
  {
    forall d, r | d in AllDraws(k, n - 1) && r in Range(n)
      ensures HoldsTrace(k, j)(Snoc(d, r)) <==> HoldsTrace(k, j)(d) && Spares(k, j)(d, r)
    {
      OldTraceHeld(k, n, d, r, j);
    }
    WhereExtends(k, n, HoldsTrace(k, j), HoldsTrace(k, j), Spares(k, j));
  }

  lemma OldTraceCounted(k: nat, n: nat, j: nat)
    requires n > k >= 1 && 1 <= j < n
    ensures Count(k, n, HoldsTrace(k, j)) == Product(n - 1, Count(k, n - 1, HoldsTrace(k, j)))
  {
    var before := Where(AllDraws(k, n - 1), HoldsTrace(k, j));
    OldTraceExtended(k, n, j);
    forall d | d in before ensures |GoodDraws(Spares(k, j), d, n)| == n - 1 {
      SparingDraws(k, d, n - 1, j);
    }
    ExtendedSize(before, Spares(k, j), n, n - 1);
  }

  lemma OldTraceHeld(k: nat, n: nat, d: seq<nat>, r: nat, j: nat)
    requires n > k >= 1 && 1 <= j < n && d in AllDraws(k, n - 1)
    ensures HoldsTrace(k, j)(Snoc(d, r)) <==> HoldsTrace(k, j)(d) && Spares(k, j)(d, r)
  {
    AllDrawsExact(k, n - 1, d);
    HoldsAfterDraw(k, d, r, j);
  }

  lemma NewTraceSurvives(k: nat, n: nat)
    requires n > k
    ensures |SlotSurvivors(k, n, n)| == Product(k, |AllDraws(k, n - 1)|)
  {
    forall d, r: nat | d in AllDraws(k, n - 1) ensures HoldsTrace(k, n)(Snoc(d, r)) <==> r < k {
      AllDrawsExact(k, n - 1, d);
      HoldsAfterDraw(k, d, r, n);
    }
    forall d | d in AllDraws(k, n - 1) ensures |GoodDraws(Below(k), d, n)| == k {
      BelowDraws(d, k, n);
    }
    CountStep(k, n, HoldsTrace(k, n), d => true, Below(k), k);
    assert Where(AllDraws(k, n - 1), d => true) == AllDraws(k, n - 1);
  }

  lemma NobodyLeftOut(k: nat, j: nat)
    requires 1 <= j <= k
    ensures |SlotSurvivors(k, k, j)| == |AllDraws(k, k)|
  {
    assert Slots(k, [])[j - 1] == j;
    assert SlotSurvivors(k, k, j) == {[]};
  }

  function SurvivorCount(k: nat, n: nat, j: nat): nat {
    if n <= k then 1
    else if j == n then Product(k, AllCount(k, n - 1))
    else Product(n - 1, SurvivorCount(k, n - 1, j))
  }

  lemma NewSurvivorCounted(k: nat, n: nat)
    requires n > k >= 1
    ensures |SlotSurvivors(k, n, n)| == SurvivorCount(k, n, n)
  {
    calc {
      |SlotSurvivors(k, n, n)|;
      { NewTraceSurvives(k, n); }
      Product(k, |AllDraws(k, n - 1)|);
      { AllDrawsCount(k, n - 1); }
      Product(k, AllCount(k, n - 1));
      SurvivorCount(k, n, n);
    }
  }

  lemma OldSurvivorCounted(k: nat, n: nat, j: nat)
    requires n > k >= 1 && 1 <= j < n && |SlotSurvivors(k, n - 1, j)| == SurvivorCount(k, n - 1, j)
    ensures |SlotSurvivors(k, n, j)| == SurvivorCount(k, n, j)
  {
    OldTraceCounted(k, n, j);
    assert |SlotSurvivors(k, n, j)| == Product(n - 1, SurvivorCount(k, n - 1, j));
  }

  lemma {:induction false} SurvivorsCounted(k: nat, n: nat, j: nat)
    requires n >= k >= 1 && 1 <= j <= n
    ensures |SlotSurvivors(k, n, j)| == SurvivorCount(k, n, j)
    decreases n
  {
    if n == k {
      NobodyLeftOut(k, j);
      AllDrawsCount(k, k);
    } else if j == n {
      NewSurvivorCounted(k, n);
    } else {
      SurvivorsCounted(k, n - 1, j);
      OldSurvivorCounted(k, n, j);
    }
  }

  lemma {:induction false} SurvivorCountShare(k: nat, n: nat, j: nat)
    requires n >= k >= 1 && 1 <= j <= n
    ensures Product(n, SurvivorCount(k, n, j)) == Product(k, AllCount(k, n))
    decreases n
  {
    if n <= k {
    } else {
      ProductExchange(n, k, AllCount(k, n - 1));
      if j < n {
        SurvivorCountShare(k, n - 1, j);
      }
    }
  }

  lemma SlotShare(k: nat, n: nat, j: nat)
    requires n >= k >= 1 && 1 <= j <= n
    ensures n * |SlotSurvivors(k, n, j)| == k * |AllDraws(k, n)|
  {
    SurvivorsCounted(k, n, j);
    AllDrawsCount(k, n);
    SurvivorCountShare(k, n, j);
    ProductIs(n, SurvivorCount(k, n, j));
    ProductIs(k, AllCount(k, n));
  }

  /** What the designed reservoir holds after n traces: all of them while there is room, then
      those in its slots. */
  function Contents(k: nat, n: nat, d: seq<nat>): seq<nat> {
    if n <= k then FirstTraces(n) else Slots(k, d)
  }

  ghost function Survivors(k: nat, n: nat, j: nat): set<seq<nat>> {
    set d | d in AllDraws(k, n) && j in Contents(k, n, d)
  }

  /** After n traces the designed reservoir holds min(k, n) different ones of them. */
  lemma ContentsDistinct(k: nat, n: nat, d: seq<nat>)
    requires d in AllDraws(k, n)
    ensures |Contents(k, n, d)| == Min(k, n) && Distinct(Contents(k, n, d))
    ensures forall x :: x in Contents(k, n, d) ==> 1 <= x <= n
  {
    if n <= k {
    } else {
      AllDrawsExact(k, n, d);
      SlotsDistinct(k, d);
    }
  }

  /** Algorithm R as designed: each of the n traces seen is in the reservoir after exactly a
      min(k, n)/n share of the draw sequences. */
  lemma SurvivalShare(k: nat, n: nat, j: nat)
    requires k >= 1 && 1 <= j <= n
    ensures n * |Survivors(k, n, j)| == Min(k, n) * |AllDraws(k, n)|
  {
    if n <= k {
      assert FirstTraces(n)[j - 1] == j;
      assert Survivors(k, n, j) == {[]};
    } else {
      assert Survivors(k, n, j) == SlotSurvivors(k, n, j);
      SlotShare(k, n, j);
    }
  }

  // ----- the code: an accepted trace is appended to the active buffer -----

  /** The numbers of the accepted traces, in order of arrival. */
  function AcceptedTraces(k: nat, d: seq<nat>): seq<nat> {
    if d == [] then FirstTraces(k)
    else
      var before := AcceptedTraces(k, d[..|d| - 1]);
      if Accepts(k + |d|, k, d[|d| - 1]) then before + [k + |d|] else before
  }

  /** What the active buffer holds when every trace has a single span. */
  function Buffered(k: nat, d: seq<nat>): seq<nat> {
    BufferAfter(AcceptedTraces(k, d), k)
  }

  ghost function BuffersTrace(k: nat, j: nat): seq<nat> -> bool {
    d => j in Buffered(k, d)
  }

  ghost function BufferSurvivors(k: nat, n: nat, j: nat): set<seq<nat>>
    requires n >= k
  {
    Where(AllDraws(k, n), BuffersTrace(k, j))
  }

  lemma BufferedSnoc(k: nat, d: seq<nat>, r: nat)
    ensures Buffered(k, Snoc(d, r))
         == if r < k then BufferAdd(Buffered(k, d), k + |d| + 1, k) else Buffered(k, d)
  {
    assert Snoc(d, r)[..|d|] == d;
    var a := AcceptedTraces(k, d);
    assert (a + [k + |d| + 1])[..|a|] == a;
  }

  lemma FirstTracesBuffered(k: nat)
    requires k >= 1
    ensures Buffered(k, []) == FirstTraces(k)
  {
    WholeWindowHeldIff(FirstTraces(k), k);
  }

  /** As long as trace 1 is buffered, the buffer is the first `k` traces, and the next
      acceptance throws them all away. */
  lemma {:induction false} FirstTraceBuffered(k: nat, d: seq<nat>)
    requires k >= 1 && 1 in Buffered(k, d)
    ensures Buffered(k, d) == FirstTraces(k)
    ensures d != [] ==> 1 in Buffered(k, d[..|d| - 1]) && d[|d| - 1] >= k
  {
    FirstTracesBuffered(k);
    if d == [] {
    } else {
      var n := |d| - 1;
      assert d == Snoc(d[..n], d[n]);
      BufferedSnoc(k, d[..n], d[n]);
      if d[n] < k {
        BufferIsSuffix(AcceptedTraces(k, d[..n]), k);
        if 1 in Buffered(k, d[..n]) {
          FirstTraceBuffered(k, d[..n]);
        }
      } else {
        FirstTraceBuffered(k, d[..n]);
      }
    }
  }

  lemma FirstTraceAfterDraw(k: nat, d: seq<nat>, r: nat)
    requires k >= 1
    ensures BuffersTrace(k, 1)(Snoc(d, r)) <==> BuffersTrace(k, 1)(d) && r >= k
  {
    BufferedSnoc(k, d, r);
    assert Snoc(d, r)[..|d|] == d;
    if 1 in Buffered(k, Snoc(d, r)) {
      FirstTraceBuffered(k, Snoc(d, r));
    }
  }

  lemma FirstTraceDropsOut(k: nat, n: nat)
    requires n > k >= 1
    ensures |BufferSurvivors(k, n, 1)| == Product(n - k, |BufferSurvivors(k, n - 1, 1)|)
  {
    forall d | d in AllDraws(k, n - 1) ensures |GoodDraws(AtLeast(k), d, n)| == n - k {
      AtLeastDraws(d, k, n);
    }
    forall d, r: nat | d in AllDraws(k, n - 1)
      ensures BuffersTrace(k, 1)(Snoc(d, r)) <==> BuffersTrace(k, 1)(d) && AtLeast(k)(d, r)
    {
      FirstTraceAfterDraw(k, d, r);
    }
    CountStep(k, n, BuffersTrace(k, 1), BuffersTrace(k, 1), AtLeast(k), n - k);
  }

  lemma FirstTraceAtStart(k: nat)
    requires k >= 1
    ensures |BufferSurvivors(k, k, 1)| == 1 && |AllDraws(k, k)| == 1
  {
    FirstTracesBuffered(k);
    assert FirstTraces(k)[0] == 1;
    assert BufferSurvivors(k, k, 1) == {[]};
  }

  function FirstCount(k: nat, n: nat): nat {
    if n <= k then 1 else Product(n - k, FirstCount(k, n - 1))
  }

  lemma {:induction false} FirstTraceCounted(k: nat, n: nat)
    requires n >= k >= 1
    ensures |BufferSurvivors(k, n, 1)| == FirstCount(k, n)
    decreases n
  {
    if n == k {
      FirstTraceAtStart(k);
    } else {
      calc {
        |BufferSurvivors(k, n, 1)|;
        { FirstTraceDropsOut(k, n); }
        Product(n - k, |BufferSurvivors(k, n - 1, 1)|);
        { FirstTraceCounted(k, n - 1); }
        Product(n - k, FirstCount(k, n - 1));
        FirstCount(k, n);
      }
    }
  }

  lemma {:induction false} FirstCountShort(k: nat, n: nat)
    requires n > k >= 2
    ensures Product(n, FirstCount(k, n)) < Product(k, AllCount(k, n))
    decreases n
  {
    var first, all := FirstCount(k, n - 1), AllCount(k, n - 1);
    if n == k + 1 {
      ProductUnits(k);
      ProductUnits(1);
    } else {
      FirstCountShort(k, n - 1);
      ProductMonotone(n - k, n - 1, first);
    }
    ProductStrict(n, Product(n - k, first), Product(k, all));
    ProductExchange(n, k, all);
  }

  /** With k >= 2 the first trace's share in the code falls strictly below k/n at once. */
  lemma FirstTraceShort(k: nat, n: nat)
    requires n > k >= 2
    ensures n * |BufferSurvivors(k, n, 1)| < k * |AllDraws(k, n)|
  {
    FirstTraceCounted(k, n);
    AllDrawsCount(k, n);
    FirstCountShort(k, n);
    ProductIs(n, FirstCount(k, n));
    ProductIs(k, AllCount(k, n));
  }

  lemma {:induction false} OneSlotBuffer(d: seq<nat>)
    ensures Buffered(1, d) == Slots(1, d)
  {
    if d == [] {
      FirstTracesBuffered(1);
    } else {
      var n := |d| - 1;
      OneSlotBuffer(d[..n]);
      assert d == Snoc(d[..n], d[n]);
      BufferedSnoc(1, d[..n], d[n]);
    }
  }

  /** With a single place the code gives every single-span trace its share 1/n. */
  lemma SinglePlaceShares(n: nat)
    requires n >= 1
    ensures forall j :: 1 <= j <= n ==> n * |BufferSurvivors(1, n, j)| == |AllDraws(1, n)|
  {
    forall j | 1 <= j <= n ensures n * |BufferSurvivors(1, n, j)| == |AllDraws(1, n)| {
      forall d | d in AllDraws(1, n) ensures j in Buffered(1, d) <==> j in Slots(1, d) {
        OneSlotBuffer(d);
      }
      assert BufferSurvivors(1, n, j) == SlotSurvivors(1, n, j);
      SlotShare(1, n, j);
    }
  }

  /** The first k traces are accepted, and then only some later ones, in order of arrival. */
  lemma {:induction false} AcceptedOrder(k: nat, d: seq<nat>)
    ensures FirstTraces(k) <= AcceptedTraces(k, d)
    ensures forall i :: 0 <= i < |AcceptedTraces(k, d)| ==> 1 <= AcceptedTraces(k, d)[i] <= k + |d|
    ensures forall i :: k <= i < |AcceptedTraces(k, d)| ==> AcceptedTraces(k, d)[i] > k
  {
    if d == [] {
    } else {
      AcceptedOrder(k, d[..|d| - 1]);
    }
  }
}
