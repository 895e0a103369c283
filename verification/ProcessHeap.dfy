/** Processes, the min-heap over one of their metrics, and the selection of the n largest. */
module ProcessHeap {
  import opened Seqs

  datatype Process = Process(
    pid: string, name: string, cpuUsage: real, memoryUsage: real,
    lastUpdated: int, lastAboveThreshold: int)

  type Metric = Process -> real

  function Parent(i: nat): nat
    requires i >= 1
    ensures Parent(i) < i
  {
    (i - 1) / 2
  }

  /** No item is smaller than its parent. */
  ghost predicate IsHeap(s: seq<Process>, value: Metric) {
    forall i :: 1 <= i < |s| ==> value(s[Parent(i)]) <= value(s[i])
  }

  /** A heap but for the link from `hole` to its parent; its children fit under that parent. */
  ghost predicate HeapAbove(s: seq<Process>, value: Metric, hole: nat) {
    && (forall i :: 1 <= i < |s| && i != hole ==> value(s[Parent(i)]) <= value(s[i]))
    && (hole >= 1 ==> forall i :: 1 <= i < |s| && Parent(i) == hole ==>
          hole < |s| && value(s[Parent(hole)]) <= value(s[i]))
  }

  /** A heap on the first `n` items but for the links from `hole` to its children; the
      children fit under its parent. */
  ghost predicate HeapBelow(s: seq<Process>, value: Metric, hole: nat, n: nat)
    requires n <= |s|
  {
    && (forall i :: 1 <= i < n && Parent(i) != hole ==> value(s[Parent(i)]) <= value(s[i]))
    && (hole >= 1 ==> forall i :: 1 <= i < n && Parent(i) == hole ==> hole < n && value(s[Parent(hole)]) <= value(s[i]))
  }

  lemma {:induction false} RootIsLeast(s: seq<Process>, value: Metric, i: nat)
    requires IsHeap(s, value) && i < |s|
    ensures value(s[0]) <= value(s[i])
  {
    if i == 0 {
    } else {
      RootIsLeast(s, value, Parent(i));
    }
  }

  function Swapped<T>(s: seq<T>, i: nat, j: nat): seq<T>
    requires i < |s| && j < |s|
  {
    s[i := s[j]][j := s[i]]
  }

  lemma SwappedMultiset<T>(s: seq<T>, i: nat, j: nat)
    requires i < |s| && j < |s|
    ensures multiset(Swapped(s, i, j)) == multiset(s)
  {
    MultisetUpdate(s, i, s[j]);
    MultisetUpdate(s[i := s[j]], j, s[i]);
  }

  lemma MultisetUpdate<T>(s: seq<T>, i: nat, x: T)
    requires i < |s|
    ensures multiset(s[i := x]) + multiset{s[i]} == multiset(s) + multiset{x}
  {
    WithoutIndex(s, i);
    WithoutIndex(s[i := x], i);
    assert RemoveAt(s, i) == RemoveAt(s[i := x], i);
  }

  class ProcessPriorityQueue {
    var items: seq<Process>
    const value: Metric

    constructor (value: Metric)
      ensures items == [] && this.value == value
    {
      items := [];
      this.value := value;
    }

    predicate Less(i: nat, j: nat)
      requires i < |items| && j < |items|
      reads this
    {
      value(items[i]) < value(items[j])
    }

    method Swap(i: nat, j: nat)
      requires i < |items| && j < |items|
      modifies this
      ensures items == Swapped(old(items), i, j) && multiset(items) == multiset(old(items))
    {
      SwappedMultiset(items, i, j);
      items := items[i := items[j]][j := items[i]];
    }

    /** Sifts the item at `start` towards the root. */
    method Up(start: nat)
      requires start < |items| && HeapAbove(items, value, start)
      modifies this
      ensures IsHeap(items, value) && multiset(items) == multiset(old(items))
    {
      var j: nat := start;
      while true
        invariant j < |items| && HeapAbove(items, value, j)
        invariant multiset(items) == multiset(old(items))
        decreases j
      {
        if j == 0 {
          break;
        }
        var i := Parent(j);
        if !Less(j, i) {
          break;
        }
        SwapUpKeeps(items, value, j);
        Swap(i, j);
        j := i;
      }
    }

    /** Sifts the item at the root down within the first `n` items. */
    method Down(n: nat)
      requires n <= |items| && HeapBelow(items, value, 0, n)
      modifies this
      ensures |items| == |old(items)| && items[n..] == old(items[n..])
      ensures IsHeap(items[..n], value) && multiset(items) == multiset(old(items))
    {
      var i: nat := 0;
      while true
        invariant |items| == |old(items)| && items[n..] == old(items[n..])
        invariant HeapBelow(items, value, i, n)
        invariant multiset(items) == multiset(old(items))
        decreases n - i
      {
        if 2 * i + 1 >= n {
          break;
        }
        var j := LeastChild(i, n);
        if !Less(j, i) {
          break;
        }
        SwapDownKeeps(items, value, i, j, n);
        Swap(i, j);
        i := j;
      }
    }

    method LeastChild(i: nat, n: nat) returns (j: nat)
      requires 2 * i + 1 < n <= |items|
      ensures i < j < n && Parent(j) == i
      ensures forall c :: 1 <= c < n && Parent(c) == i ==> value(items[j]) <= value(items[c])
    {
      j := 2 * i + 1;
      if j + 1 < n && Less(j + 1, j) {
        j := j + 1;
      }
      forall c | 1 <= c < n && Parent(c) == i ensures value(items[j]) <= value(items[c]) {
        assert c == 2 * i + 1 || c == 2 * i + 2;
      }
    }

    /** Adds a process; the heap shape holds again afterwards. */
    method Push(x: Process)
      requires IsHeap(items, value)
      modifies this
      ensures IsHeap(items, value) && multiset(items) == multiset(old(items)) + multiset{x}
      ensures |items| == |old(items)| + 1
    {
      items := items + [x];
      Up(|items| - 1);
      assert |multiset(items)| == |items|;
      assert |multiset(old(items)) + multiset{x}| == |old(items)| + 1;
    }

    /** Removes the root, which is a least item; the heap shape holds again afterwards. */
    method Pop() returns (x: Process)
      requires IsHeap(items, value) && items != []
      modifies this
      ensures IsHeap(items, value) && |items| == |old(items)| - 1
      ensures x == old(items[0]) && multiset(old(items)) == multiset(items) + multiset{x}
    {
      var n := |items| - 1;
      Swap(0, n);
      Down(n);
      x := items[n];
      assert items == items[..n] + [x];
      assert items[n..][0] == x;
      items := items[..n];
    }
  }

  /** Swapping a too-small item with its parent moves the hole to the parent. */
  lemma SwapUpKeeps(s: seq<Process>, value: Metric, j: nat)
    requires 1 <= j < |s| && HeapAbove(s, value, j)
    requires value(s[j]) < value(s[Parent(j)])
    ensures HeapAbove(Swapped(s, Parent(j), j), value, Parent(j))
  {
  }

  /** Swapping a too-large item with its smaller child moves the hole to the child. */
  lemma SwapDownKeeps(s: seq<Process>, value: Metric, i: nat, j: nat, n: nat)
    requires n <= |s| && i < j < n && Parent(j) == i && HeapBelow(s, value, i, n)
    requires value(s[j]) < value(s[i])
    requires forall c :: 1 <= c < n && Parent(c) == i ==> value(s[j]) <= value(s[c])
    ensures HeapBelow(Swapped(s, i, j), value, j, n)
  {
  }

  // ----- the n largest -----

  ghost predicate Descending(s: seq<Process>, value: Metric) {
    forall i, j :: 0 <= i < j < |s| ==> value(s[i]) >= value(s[j])
  }

  /** `top` is n of the processes, and no process left out is larger than one of them. */
  ghost predicate IsTopN(processes: multiset<Process>, top: multiset<Process>, n: nat, value: Metric) {
    && top <= processes && |top| == n
    && forall x, y :: x in processes - top && y in top ==> value(x) <= value(y)
  }

  /** Selects the n processes with the largest values; all of them, as they are, when there
      are no more than n. */
  method GetTopNByMetric(processes: seq<Process>, n: nat, value: Metric) returns (result: seq<Process>)
    ensures |processes| <= n ==> result == processes
    ensures |processes| > n ==>
      IsTopN(multiset(processes), multiset(result), n, value) && Descending(result, value)
  {
    if |processes| <= n {
      return processes;
    }
    var h := new ProcessPriorityQueue(value);
    for i := 0 to n
      invariant IsHeap(h.items, value) && h.value == value && |h.items| == i
      invariant multiset(h.items) == multiset(processes[..i])
    {
      assert processes[..i + 1] == processes[..i] + [processes[i]];
      h.Push(processes[i]);
    }
    if |h.items| == 0 {
      return [];
    }
    ghost var dropped := KeepLargest(h, processes, n);
    LeastInHeap(h.items, value);
    result := Drain(h);
    assert multiset(processes) - multiset(result) == dropped;
  }

  /** Offers the processes from place `n` on to a full heap: one that is larger than the
      least item replaces it, any other is passed over. */
  method KeepLargest(h: ProcessPriorityQueue, processes: seq<Process>, n: nat)
    returns (ghost dropped: multiset<Process>)
    requires 1 <= n <= |processes| && IsHeap(h.items, h.value) && |h.items| == n
    requires multiset(h.items) == multiset(processes[..n])
    modifies h
    ensures IsHeap(h.items, h.value) && |h.items| == n
    ensures multiset(h.items) + dropped == multiset(processes)
    ensures forall x :: x in dropped ==> h.value(x) <= h.value(h.items[0])
  {
    dropped := multiset{};
    var minValue := h.value(h.items[0]);
    for i := n to |processes|
      invariant IsHeap(h.items, h.value) && |h.items| == n
      invariant minValue == h.value(h.items[0])
      invariant multiset(h.items) + dropped == multiset(processes[..i])
      invariant forall x :: x in dropped ==> h.value(x) <= minValue
    {
      ghost var before := multiset(h.items);
      var currValue := h.value(processes[i]);
      if currValue > minValue {
        var least := Replace(h, processes[i]);
        LeastDropped(multiset(h.items), least, before, dropped, processes, i);
        dropped := dropped + multiset{least};
        minValue := h.value(h.items[0]);
      } else {
        PassedOver(before, dropped, processes, i);
        dropped := dropped + multiset{processes[i]};
      }
    }
    assert processes[..|processes|] == processes;
  }

  lemma PassedOver<T>(kept: multiset<T>, dropped: multiset<T>, s: seq<T>, i: nat)
    requires i < |s| && kept + dropped == multiset(s[..i])
    ensures kept + (dropped + multiset{s[i]}) == multiset(s[..i + 1])
  {
    TakeOneMore(s, i);
  }

  lemma LeastDropped<T>(kept: multiset<T>, least: T, before: multiset<T>, dropped: multiset<T>, s: seq<T>, i: nat)
    requires i < |s| && before + dropped == multiset(s[..i])
    requires kept + multiset{least} == before + multiset{s[i]}
    ensures kept + (dropped + multiset{least}) == multiset(s[..i + 1])
  {
    PassedOver(before, dropped, s, i);
    assert kept + (dropped + multiset{least}) == (kept + multiset{least}) + dropped;
    assert before + (dropped + multiset{s[i]}) == (before + multiset{s[i]}) + dropped;
  }

  /** Pops the least item and pushes a larger one; no item is then below the one popped. */
  method Replace(h: ProcessPriorityQueue, x: Process) returns (least: Process)
    requires IsHeap(h.items, h.value) && h.items != [] && h.value(h.items[0]) < h.value(x)
    modifies h
    ensures IsHeap(h.items, h.value) && |h.items| == |old(h.items)|
    ensures least == old(h.items[0]) && multiset(h.items) + multiset{least} == multiset(old(h.items)) + multiset{x}
    ensures h.value(least) <= h.value(h.items[0])
  {
    LeastInHeap(h.items, h.value);
    least := h.Pop();
    h.Push(x);
    assert h.items[0] in multiset(h.items);
    assert h.items[0] == x || h.items[0] in multiset(old(h.items));
  }

  lemma LeastInHeap(s: seq<Process>, value: Metric)
    requires IsHeap(s, value) && s != []
    ensures forall x :: x in multiset(s) ==> value(s[0]) <= value(x)
  {
    forall i | 0 <= i < |s| ensures value(s[0]) <= value(s[i]) {
      RootIsLeast(s, value, i);
    }
  }

  /** Empties the heap, filling the result from its end with ever larger items. */
  method Drain(h: ProcessPriorityQueue) returns (result: seq<Process>)
    requires IsHeap(h.items, h.value)
    modifies h
    ensures multiset(result) == multiset(old(h.items)) && |result| == |old(h.items)|
    ensures Descending(result, h.value)
  {
    result := [];
    while |h.items| > 0
      invariant IsHeap(h.items, h.value) && |result| + |h.items| == |old(h.items)|
      invariant multiset(h.items) + multiset(result) == multiset(old(h.items))
      invariant Descending(result, h.value)
      invariant forall x, y :: x in multiset(h.items) && y in result ==> h.value(y) <= h.value(x)
      decreases |h.items|
    {
      LeastInHeap(h.items, h.value);
      ghost var before := multiset(h.items);
      assert h.items[0] in before;
      var x := h.Pop();
      assert forall z :: z in multiset(h.items) ==> z in before;
      result := [x] + result;
    }
  }
}
