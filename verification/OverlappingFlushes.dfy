/** Two runs in which a flush still reads while later spans arrive, and what they lose. */
module OverlappingFlushes {
  import opened LruCache
  import opened ReservoirWindow

  ghost predicate DifferentKeys(a: seq<Stored>) {
    forall i, j :: 0 <= i < j < |a| ==> KeyOf(a[i]) != KeyOf(a[j])
  }

  function PutOf(s: Stored): CacheCall {
    Put(KeyOf(s), s)
  }

  function ReadOf(s: Stored): CacheCall {
    Read(KeyOf(s))
  }

  /** The keys cached after a list of calls. */
  function Cached(calls: seq<CacheCall>, cap: nat): seq<SpanRef> {
    Keys(Run(calls, cap))
  }

  lemma AfterPut(calls: seq<CacheCall>, s: Stored, cap: nat, keys: seq<SpanRef>)
    requires Cached(calls, cap) == keys && KeyOf(s) !in keys
    ensures Cached(calls + [PutOf(s)], cap) == Take([KeyOf(s)] + keys, cap)
  {
    KeysAfterCall(calls, PutOf(s), cap);
    PutNewKey(keys, PutOf(s), cap);
  }

  lemma AfterReadOldest(calls: seq<CacheCall>, s: Stored, cap: nat, front: seq<SpanRef>)
    requires Cached(calls, cap) == front + [KeyOf(s)] && KeyOf(s) !in front
    ensures Cached(calls + [ReadOf(s)], cap) == [KeyOf(s)] + front
  {
    KeysAfterCall(calls, ReadOf(s), cap);
    ReadOldest(front, ReadOf(s), cap);
  }

  lemma AfterMiss(calls: seq<CacheCall>, s: Stored, cap: nat)
    requires KeyOf(s) !in Cached(calls, cap)
    ensures Cached(calls + [ReadOf(s)], cap) == Cached(calls, cap)
  {
    KeysAfterCall(calls, ReadOf(s), cap);
  }

  // ----- a flush overlapping the next window -----

  /** The second window opens while the first flush is reading. */
  function LateFlush(a: Stored, b: Stored, c: Stored): seq<Event> {
    [Add(a), Close, Add(b), ReadNext(0), Close, Add(c), ReadNext(1)]
  }

  lemma LateFlushCache(a: Stored, b: Stored, c: Stored)
    requires DifferentKeys([a, b, c])
    ensures Cached([PutOf(a)] + [PutOf(b)], 2) == [KeyOf(b), KeyOf(a)]
    ensures Cached([PutOf(a)] + [PutOf(b)] + [ReadOf(a)] + [PutOf(c)], 2) == [KeyOf(c), KeyOf(a)]
  {
    var x, y, z := KeyOf(a), KeyOf(b), KeyOf(c);
    assert [a, b, c][0] == a && [a, b, c][1] == b && [a, b, c][2] == c;
    assert x != y && x != z && y != z;
    assert [] + [PutOf(a)] == [PutOf(a)];
    AfterPut([], a, 2, []);
    AfterPut([PutOf(a)], b, 2, [x]);
    assert [y, x] == [y] + [x];
    AfterReadOldest([PutOf(a)] + [PutOf(b)], a, 2, [y]);
    AfterPut([PutOf(a)] + [PutOf(b)] + [ReadOf(a)], c, 2, [x, y]);
  }

  lemma AddFirst(st: State, s: Stored, k: nat, cap: nat)
    requires st.buffer == []
    ensures Next(st, Add(s), k, cap) == State([s], |st.calls|, st.calls + [PutOf(s)], st.jobs)
  {
    assert st.buffer + [s] == [s];
  }

  lemma CloseStep(st: State, k: nat, cap: nat)
    requires st.buffer != []
    ensures Next(st, Close, k, cap)
         == State([], |st.calls|, st.calls, st.jobs + [Job(st.buffer, st.buffer, st.start, [], 0)])
  {
  }

  lemma HitStep(st: State, a: Stored, v: Stored)
    requires st.jobs == [Job([a], [a], 0, [], 0)]
    requires Has(Run(st.calls, 2), KeyOf(a)) && v == Find(Run(st.calls, 2), KeyOf(a))
    ensures Next(st, ReadNext(0), 1, 2)
         == State(st.buffer, st.start, st.calls + [ReadOf(a)], [Job([a], [], 0, [v], 0)])
  {
    assert [a][1..] == [] && [] + [v] == [v];
    assert LookUp(st.jobs[0], st.calls, 2) == Job([a], [], 0, [v], 0);
  }

  lemma FirstWindow(a: Stored, b: Stored, c: Stored)
    ensures After(LateFlush(a, b, c)[..3], 1, 2)
         == State([b], 1, [PutOf(a)] + [PutOf(b)], [Job([a], [a], 0, [], 0)])
  {
    var run := LateFlush(a, b, c);
    AfterStep(run, 0, 1, 2);
    AddFirst(FRESH, a, 1, 2);
    AfterStep(run, 1, 1, 2);
    CloseStep(State([a], 0, [PutOf(a)], []), 1, 2);
    AfterStep(run, 2, 1, 2);
    AddFirst(State([], 1, [PutOf(a)], [Job([a], [a], 0, [], 0)]), b, 1, 2);
  }

  lemma FirstRead(a: Stored, b: Stored, c: Stored) returns (v: Stored)
    requires DifferentKeys([a, b, c])
    ensures After(LateFlush(a, b, c)[..4], 1, 2)
         == State([b], 1, [PutOf(a)] + [PutOf(b)] + [ReadOf(a)], [Job([a], [], 0, [v], 0)])
  {
    var calls := [PutOf(a)] + [PutOf(b)];
    FirstWindow(a, b, c);
    LateFlushCache(a, b, c);
    HasIsKey(Run(calls, 2), KeyOf(a));
    v := Find(Run(calls, 2), KeyOf(a));
    AfterStep(LateFlush(a, b, c), 3, 1, 2);
    HitStep(State([b], 1, calls, [Job([a], [a], 0, [], 0)]), a, v);
  }

  /** A window closes and the first span of the next one arrives. */
  lemma NextWindow(st: State, s: Stored, k: nat, cap: nat)
    requires st.buffer != []
    ensures Next(Next(st, Close, k, cap), Add(s), k, cap)
         == State([s], |st.calls|, st.calls + [PutOf(s)], st.jobs + [Job(st.buffer, st.buffer, st.start, [], 0)])
  {
    CloseStep(st, k, cap);
    AddFirst(Next(st, Close, k, cap), s, k, cap);
  }

  lemma SecondWindow(a: Stored, b: Stored, c: Stored) returns (v: Stored)
    requires DifferentKeys([a, b, c])
    ensures After(LateFlush(a, b, c)[..4], 1, 2).jobs == [Job([a], [], 0, [v], 0)]
    ensures After(LateFlush(a, b, c)[..6], 1, 2)
         == State([c], 3, [PutOf(a)] + [PutOf(b)] + [ReadOf(a)] + [PutOf(c)],
                  [Job([a], [], 0, [v], 0)] + [Job([b], [b], 1, [], 0)])
  {
    v := FirstRead(a, b, c);
    AfterStep(LateFlush(a, b, c), 4, 1, 2);
    AfterStep(LateFlush(a, b, c), 5, 1, 2);
    NextWindow(After(LateFlush(a, b, c)[..4], 1, 2), c, 1, 2);
  }

  /** With a single place (k = 1) this run, in which every window closes after the flush
      before it has ended and every read is of a pending span, loses the span of its second
      window, whatever the spans are. */
  lemma OverlappingFlushLosesASpan(a: Stored, b: Stored, c: Stored)
    requires DifferentKeys([a, b, c])
    ensures Orderly(LateFlush(a, b, c), 1, 2)
    ensures Reads(After(LateFlush(a, b, c)[..3], 1, 2), 0) && Reads(After(LateFlush(a, b, c)[..6], 1, 2), 1)
    ensures var jobs := After(LateFlush(a, b, c), 1, 2).jobs; |jobs| == 2 && jobs[1].missing == 1
  {
    var run := LateFlush(a, b, c);
    FirstWindow(a, b, c);
    var v := SecondWindow(a, b, c);
    LateFlushCache(a, b, c);
    assert [a, b, c][0] == a && [a, b, c][1] == b && [a, b, c][2] == c;
    var st := After(run[..6], 1, 2);
    HasIsKey(Run(st.calls, 2), KeyOf(b));
    AfterStep(run, 6, 1, 2);
    assert run[..7] == run;
    LateFlushIsOrderly(a, b, c, v);
  }

  lemma LateFlushIsOrderly(a: Stored, b: Stored, c: Stored, v: Stored)
    requires After(LateFlush(a, b, c)[..4], 1, 2).jobs == [Job([a], [], 0, [v], 0)]
    ensures Orderly(LateFlush(a, b, c), 1, 2)
  {
    var run := LateFlush(a, b, c);
    AfterStep(run, 0, 1, 2);
    assert After(run[..1], 1, 2).jobs == [];
    forall i | 0 <= i < |run| && run[i].Close? ensures AllEnded(After(run[..i], 1, 2).jobs) {
      assert i == 1 || i == 4;
    }
  }

  // ----- two flushes at once -----

  /** Two windows of two spans close before either flush has read anything. */
  function TwoFlushes(a: seq<Stored>): seq<Event>
    requires |a| == 6
  {
    [Add(a[0]), Add(a[1]), Close, Add(a[2]), Add(a[3]), Close, Add(a[4]),
     ReadNext(0), ReadNext(0), ReadNext(1), ReadNext(1), Add(a[5])]
  }

  function FivePuts(a: seq<Stored>): seq<CacheCall>
    requires |a| == 6
  {
    [PutOf(a[0])] + [PutOf(a[1])] + [PutOf(a[2])] + [PutOf(a[3])] + [PutOf(a[4])]
  }

  function AllCalls(a: seq<Stored>): seq<CacheCall>
    requires |a| == 6
  {
    FivePuts(a) + [ReadOf(a[0])] + [ReadOf(a[1])] + [ReadOf(a[2])] + [ReadOf(a[3])] + [PutOf(a[5])]
  }

  lemma FivePutsCache(a: seq<Stored>)
    requires |a| == 6 && DifferentKeys(a)
    ensures Cached(FivePuts(a), 4) == [KeyOf(a[4]), KeyOf(a[3]), KeyOf(a[2]), KeyOf(a[1])]
  {
    var k0, k1, k2, k3 := KeyOf(a[0]), KeyOf(a[1]), KeyOf(a[2]), KeyOf(a[3]);
    assert [] + [PutOf(a[0])] == [PutOf(a[0])];
    AfterPut([], a[0], 4, []);
    AfterPut([PutOf(a[0])], a[1], 4, [k0]);
    AfterPut([PutOf(a[0])] + [PutOf(a[1])], a[2], 4, [k1, k0]);
    AfterPut([PutOf(a[0])] + [PutOf(a[1])] + [PutOf(a[2])], a[3], 4, [k2, k1, k0]);
    AfterPut([PutOf(a[0])] + [PutOf(a[1])] + [PutOf(a[2])] + [PutOf(a[3])], a[4], 4, [k3, k2, k1, k0]);
  }

  lemma AllCallsCache(a: seq<Stored>)
    requires |a| == 6 && DifferentKeys(a)
    ensures Cached(AllCalls(a), 4) == [KeyOf(a[5]), KeyOf(a[3]), KeyOf(a[2]), KeyOf(a[1])]
  {
    var k1, k2, k3, k4 := KeyOf(a[1]), KeyOf(a[2]), KeyOf(a[3]), KeyOf(a[4]);
    var c0 := FivePuts(a) + [ReadOf(a[0])];
    var c1 := c0 + [ReadOf(a[1])];
    var c2 := c1 + [ReadOf(a[2])];
    var c3 := c2 + [ReadOf(a[3])];
    FivePutsCache(a);
    AfterMiss(FivePuts(a), a[0], 4);
    assert [k4, k3, k2, k1] == [k4, k3, k2] + [k1];
    AfterReadOldest(c0, a[1], 4, [k4, k3, k2]);
    assert [k1] + [k4, k3, k2] == [k1, k4, k3] + [k2];
    AfterReadOldest(c1, a[2], 4, [k1, k4, k3]);
    assert [k2] + [k1, k4, k3] == [k2, k1, k4] + [k3];
    AfterReadOldest(c2, a[3], 4, [k2, k1, k4]);
    assert [k3] + [k2, k1, k4] == [k3, k2, k1, k4];
    AfterPut(c3, a[5], 4, [k3, k2, k1, k4]);
  }

  /** Two spans fill a window of two, which then closes. */
  lemma WindowOfTwo(st: State, s: Stored, t: Stored, cap: nat)
    requires st.buffer == []
    ensures Next(Next(Next(st, Add(s), 2, cap), Add(t), 2, cap), Close, 2, cap)
         == State([], |st.calls| + 2, st.calls + [PutOf(s)] + [PutOf(t)],
                  st.jobs + [Job([s, t], [s, t], |st.calls|, [], 0)])
  {
    AddFirst(st, s, 2, cap);
    assert [s] + [t] == [s, t];
  }

  lemma TwoWindowsClosed(a: seq<Stored>)
    requires |a| == 6
    ensures After(TwoFlushes(a)[..7], 2, 4)
         == State([a[4]], 4, FivePuts(a), [Job([a[0], a[1]], [a[0], a[1]], 0, [], 0),
                                           Job([a[2], a[3]], [a[2], a[3]], 2, [], 0)])
  {
    var run := TwoFlushes(a);
    AfterStep(run, 0, 2, 4);
    AfterStep(run, 1, 2, 4);
    AfterStep(run, 2, 2, 4);
    WindowOfTwo(FRESH, a[0], a[1], 4);
    AfterStep(run, 3, 2, 4);
    AfterStep(run, 4, 2, 4);
    AfterStep(run, 5, 2, 4);
    WindowOfTwo(After(run[..3], 2, 4), a[2], a[3], 4);
    AfterStep(run, 6, 2, 4);
    AddFirst(After(run[..6], 2, 4), a[4], 2, 4);
  }

  lemma ReadStep(st: State, j: nat, s: Stored, k: nat, cap: nat)
    requires Reads(st, j) && st.jobs[j].pending[0] == s
    ensures var st' := Next(st, ReadNext(j), k, cap);
      && st'.buffer == st.buffer && st'.start == st.start && st'.calls == st.calls + [ReadOf(s)]
      && |st'.jobs| == |st.jobs| && st'.jobs[j].pending == st.jobs[j].pending[1..]
      && forall i :: 0 <= i < |st.jobs| && i != j ==> st'.jobs[i] == st.jobs[i]
  {
  }

  lemma BothFlushesRead(a: seq<Stored>)
    requires |a| == 6
    ensures After(TwoFlushes(a)[..11], 2, 4).buffer == [a[4]]
    ensures After(TwoFlushes(a)[..11], 2, 4).calls + [PutOf(a[5])] == AllCalls(a)
  {
    var run := TwoFlushes(a);
    TwoWindowsClosed(a);
    AfterStep(run, 7, 2, 4);
    ReadStep(After(run[..7], 2, 4), 0, a[0], 2, 4);
    AfterStep(run, 8, 2, 4);
    ReadStep(After(run[..8], 2, 4), 0, a[1], 2, 4);
    AfterStep(run, 9, 2, 4);
    ReadStep(After(run[..9], 2, 4), 1, a[2], 2, 4);
    AfterStep(run, 10, 2, 4);
    ReadStep(After(run[..10], 2, 4), 1, a[3], 2, 4);
  }

  /** With k = 2 and a cache of 2k entries, a span of the active buffer is evicted: two
      pending flushes are enough for the cache to be asked for more than 2k keys. */
  lemma TwoFlushesEvictABufferedSpan(a: seq<Stored>)
    requires |a| == 6 && DifferentKeys(a)
    ensures var st := After(TwoFlushes(a), 2, 4);
      st.buffer == [a[4], a[5]] && !Has(Run(st.calls, 4), KeyOf(a[4]))
  {
    var run := TwoFlushes(a);
    BothFlushesRead(a);
    AfterStep(run, 11, 2, 4);
    assert run[..12] == run;
    AllCallsCache(a);
    HasIsKey(Run(AllCalls(a), 4), KeyOf(a[4]));
  }
}
