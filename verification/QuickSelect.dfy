/** The in-place selection kept beside the heap, and why the two agree. */
module QuickSelect {
  import opened Seqs
  import opened ProcessHeap

  /** `a` is `b` with only the places from `l` up to `r` rearranged. */
  ghost predicate RangePermuted<T>(a: seq<T>, b: seq<T>, l: nat, r: nat) {
    && l <= r <= |a| == |b|
    && a[..l] == b[..l] && a[r..] == b[r..]
    && multiset(a[l..r]) == multiset(b[l..r])
  }

  lemma RangeSplit<T>(a: seq<T>, l: nat, l': nat, r': nat, r: nat)
    requires l <= l' <= r' <= r <= |a|
    ensures a[l..r] == a[l..l'] + a[l'..r'] + a[r'..r]
  {
  }

  lemma RangeWiden<T>(a: seq<T>, b: seq<T>, l: nat, l': nat, r': nat, r: nat)
    requires RangePermuted(a, b, l', r') && l <= l' && r' <= r <= |a|
    ensures RangePermuted(a, b, l, r)
  {
    RangeSplit(a, l, l', r', r);
    RangeSplit(b, l, l', r', r);
    assert a[l..l'] == a[..l'][l..] == b[..l'][l..] == b[l..l'];
    assert a[r'..r] == a[r'..][..r - r'] == b[r'..][..r - r'] == b[r'..r];
    assert a[..l] == a[..l'][..l] && b[..l] == b[..l'][..l];
    assert a[r..] == a[r'..][r - r'..] && b[r..] == b[r'..][r - r'..];
  }

  lemma RangeSwap<T>(s: seq<T>, s0: seq<T>, i: nat, j: nat, l: nat, r: nat)
    requires RangePermuted(s, s0, l, r) && l <= i < r <= |s| && l <= j < r
    ensures RangePermuted(Swapped(s, i, j), s0, l, r)
  {
    var t := Swapped(s, i, j);
    assert t[l..r] == Swapped(s[l..r], i - l, j - l);
    SwappedMultiset(s[l..r], i - l, j - l);
    assert t[..l] == s[..l] && t[r..] == s[r..];
  }

  lemma RangeMember<T>(a: seq<T>, b: seq<T>, l: nat, r: nat, i: nat) returns (j: nat)
    requires RangePermuted(a, b, l, r) && l <= i < r
    ensures l <= j < r && a[i] == b[j]
  {
    assert a[l..r][i - l] in multiset(a[l..r]);
    var j' :| 0 <= j' < |b[l..r]| && b[l..r][j'] == a[i];
    j := l + j';
  }

  ghost predicate Split(s: seq<Process>, value: Metric, left: nat, p: nat, right: nat)
    requires left <= p <= right < |s|
  {
    && (forall i :: left <= i < p ==> value(s[i]) >= value(s[p]))
    && (forall i :: p < i <= right ==> value(s[i]) <= value(s[p]))
  }

  method Swap(arr: array<Process>, i: nat, j: nat)
    requires i < arr.Length && j < arr.Length
    modifies arr
    ensures arr[..] == Swapped(old(arr[..]), i, j)
  {
    arr[i], arr[j] := arr[j], arr[i];
  }

  /** The loop's picture: larger values, then the others seen so far, the pivot at the end. */
  ghost predicate Partitioned(s: seq<Process>, value: Metric, left: nat, i: nat, j: nat, right: nat, pivot: real)
    requires left <= i <= j <= right < |s|
  {
    && value(s[right]) == pivot
    && (forall m :: left <= m < i ==> value(s[m]) > pivot)
    && (forall m :: i <= m < j ==> value(s[m]) <= pivot)
  }

  ghost predicate Progress(s: seq<Process>, s0: seq<Process>, value: Metric,
                           left: nat, i: nat, j: nat, right: nat, pivot: real)
    requires left <= i <= j <= right < |s|
  {
    RangePermuted(s, s0, left, right + 1) && Partitioned(s, value, left, i, j, right, pivot)
  }

  lemma LargerStep(s: seq<Process>, s0: seq<Process>, value: Metric, left: nat, i: nat, j: nat, right: nat, pivot: real)
    requires left <= i <= j < right < |s| && Progress(s, s0, value, left, i, j, right, pivot)
    requires value(s[j]) > pivot
    ensures Progress(Swapped(s, i, j), s0, value, left, i + 1, j + 1, right, pivot)
  {
    RangeSwap(s, s0, i, j, left, right + 1);
  }

  lemma OtherStep(s: seq<Process>, s0: seq<Process>, value: Metric, left: nat, i: nat, j: nat, right: nat, pivot: real)
    requires left <= i <= j < right < |s| && Progress(s, s0, value, left, i, j, right, pivot)
    requires value(s[j]) <= pivot
    ensures Progress(s, s0, value, left, i, j + 1, right, pivot)
  {
  }

  lemma LastStep(s: seq<Process>, s0: seq<Process>, value: Metric, left: nat, i: nat, right: nat, pivot: real)
    requires left <= i <= right < |s| && Progress(s, s0, value, left, i, right, right, pivot)
    ensures Split(Swapped(s, i, right), value, left, i, right)
    ensures RangePermuted(Swapped(s, i, right), s0, left, right + 1)
  {
    RangeSwap(s, s0, i, right, left, right + 1);
  }

  /** Puts the last item of the range in its place: larger values before it, the rest after. */
  method Partition(arr: array<Process>, left: nat, right: nat, value: Metric) returns (p: nat)
    requires left <= right < arr.Length
    modifies arr
    ensures left <= p <= right && Split(arr[..], value, left, p, right)
    ensures RangePermuted(arr[..], old(arr[..]), left, right + 1)
  {
    var pivotValue := value(arr[right]);
    var i := left;
    ghost var s0 := arr[..];
    ghost var s := s0;
    for j := left to right
      invariant left <= i <= j && |s| == arr.Length
      invariant s == arr[..] && Progress(s, s0, value, left, i, j, right, pivotValue)
    {
      if value(arr[j]) > pivotValue {
        LargerStep(s, s0, value, left, i, j, right, pivotValue);
        s := Swapped(s, i, j);
        Swap(arr, i, j);
        i := i + 1;
      } else {
        OtherStep(s, s0, value, left, i, j, right, pivotValue);
      }
    }
    LastStep(s, s0, value, left, i, right, pivotValue);
    Swap(arr, i, right);
    p := i;
  }

  /** Rearranges only [left, right] so that place k has the value it would have in descending
      order: nothing before it in the range is smaller, nothing after it larger. */
  method Select(arr: array<Process>, left: nat, right: nat, k: nat, value: Metric)
    requires left <= k <= right < arr.Length
    modifies arr
    ensures RangePermuted(arr[..], old(arr[..]), left, right + 1)
    ensures Split(arr[..], value, left, k, right)
    decreases right - left
  {
    if left == right {
      return;
    }
    ghost var s0 := arr[..];
    var p := Partition(arr, left, right, value);
    ghost var mid := arr[..];
    if k == p {
      return;
    } else if k < p {
      Select(arr, left, p - 1, k, value);
      LeftPart(arr[..], mid, s0, value, left, p, right, k);
    } else {
      Select(arr, p + 1, right, k, value);
      RightPart(arr[..], mid, s0, value, left, p, right, k);
    }
  }

  /** Rearranging a part of a rearranged range. */
  lemma RangeNested<T>(a: seq<T>, mid: seq<T>, s0: seq<T>, l: nat, l': nat, r': nat, r: nat)
    requires RangePermuted(a, mid, l', r') && RangePermuted(mid, s0, l, r) && l <= l' && r' <= r
    ensures RangePermuted(a, s0, l, r)
  {
    RangeWiden(a, mid, l, l', r', r);
  }

  lemma LeftSplit(a: seq<Process>, mid: seq<Process>, value: Metric, left: nat, p: nat, right: nat, k: nat)
    requires left <= k < p <= right < |a| && RangePermuted(a, mid, left, p)
    requires Split(mid, value, left, p, right) && Split(a, value, left, k, p - 1)
    ensures Split(a, value, left, k, right)
  {
    var j := RangeMember(a, mid, left, p, k);
    forall i | p <= i <= right ensures value(a[i]) <= value(a[k]) {
      assert a[i] == a[p..][i - p] == mid[p..][i - p] == mid[i];
    }
  }

  lemma RightSplit(a: seq<Process>, mid: seq<Process>, value: Metric, left: nat, p: nat, right: nat, k: nat)
    requires left <= p < k <= right < |a| && RangePermuted(a, mid, p + 1, right + 1)
    requires Split(mid, value, left, p, right) && Split(a, value, p + 1, k, right)
    ensures Split(a, value, left, k, right)
  {
    var j := RangeMember(a, mid, p + 1, right + 1, k);
    forall i | left <= i <= p ensures value(a[i]) >= value(a[k]) {
      assert a[i] == a[..p + 1][i] == mid[..p + 1][i] == mid[i];
    }
  }

  lemma LeftPart(a: seq<Process>, mid: seq<Process>, s0: seq<Process>, value: Metric,
                 left: nat, p: nat, right: nat, k: nat)
    requires left <= k < p <= right < |a| && RangePermuted(a, mid, left, p)
    requires RangePermuted(mid, s0, left, right + 1)
    requires Split(mid, value, left, p, right) && Split(a, value, left, k, p - 1)
    ensures Split(a, value, left, k, right) && RangePermuted(a, s0, left, right + 1)
  {
    RangeNested(a, mid, s0, left, left, p, right + 1);
    LeftSplit(a, mid, value, left, p, right, k);
  }

  lemma RightPart(a: seq<Process>, mid: seq<Process>, s0: seq<Process>, value: Metric,
                  left: nat, p: nat, right: nat, k: nat)
    requires left <= p < k <= right < |a| && RangePermuted(a, mid, p + 1, right + 1)
    requires RangePermuted(mid, s0, left, right + 1)
    requires Split(mid, value, left, p, right) && Split(a, value, p + 1, k, right)
    ensures Split(a, value, left, k, right) && RangePermuted(a, s0, left, right + 1)
  {
    RangeNested(a, mid, s0, left, p + 1, right + 1, right + 1);
    RightSplit(a, mid, value, left, p, right, k);
  }

  // ----- agreement with the heap -----

  /** After selecting place n - 1 of the whole array, its first n items are a top n. */
  lemma FirstItemsAreTopN(a: seq<Process>, n: nat, value: Metric)
    requires 1 <= n <= |a| && Split(a, value, 0, n - 1, |a| - 1)
    ensures IsTopN(multiset(a), multiset(a[..n]), n, value)
  {
    assert a == a[..n] + a[n..];
    assert multiset(a) - multiset(a[..n]) == multiset(a[n..]);
    forall x, y | x in multiset(a[n..]) && y in multiset(a[..n]) ensures value(x) <= value(y) {
      var i :| 0 <= i < |a[n..]| && a[n..][i] == x;
      var j :| 0 <= j < n && a[..n][j] == y;
      assert value(a[n + i]) <= value(a[n - 1]) <= value(a[j]);
    }
  }

  lemma {:induction false} Listing<T>(m: multiset<T>) returns (s: seq<T>)
    ensures multiset(s) == m
    decreases |m|
  {
    if |m| == 0 {
      s := [];
    } else {
      var x :| x in m;
      var rest := Listing(m - multiset{x});
      s := [x] + rest;
    }
  }

  lemma SameSizeSubset<T>(a: multiset<T>, b: multiset<T>)
    requires a <= b && |a| == |b|
    ensures a == b
  {
    assert b == a + (b - a);
    assert |b - a| == 0;
  }

  lemma Excess<T>(a: multiset<T>, b: multiset<T>) returns (x: T)
    requires !(a <= b)
    ensures a[x] > b[x]
  {
    assert exists e :: !(a[e] <= b[e]);
    x :| a[x] > b[x];
  }

  lemma SameCount<T>(a: multiset<T>, b: multiset<T>, c: multiset<T>, d: multiset<T>, x: T)
    requires a + b == c + d
    ensures a[x] + b[x] == c[x] + d[x]
  {
    assert (a + b)[x] == (c + d)[x];
  }

  /** Two halves of the same values of which each upper half dominates its lower half agree. */
  lemma DominatingHalves(upA: multiset<real>, lowA: multiset<real>, upB: multiset<real>, lowB: multiset<real>)
    requires upA + lowA == upB + lowB && |upA| == |upB|
    requires forall x, y :: x in lowA && y in upA ==> x <= y
    requires forall x, y :: x in lowB && y in upB ==> x <= y
    ensures upA == upB
  {
    if upA != upB {
      if !(upA <= upB) {
        var x := Excess(upA, upB);
        SameCount(upA, lowA, upB, lowB, x);
        if upB <= upA {
          SameSizeSubset(upB, upA);
        } else {
          var y := Excess(upB, upA);
          SameCount(upA, lowA, upB, lowB, y);
        }
      } else {
        SameSizeSubset(upA, upB);
      }
    }
  }

  /** The values of a top n are determined: any two selections, by heap or in place, have the
      same multiset of values. */
  lemma TopNValuesUnique(processes: multiset<Process>, a: seq<Process>, b: seq<Process>, n: nat, value: Metric)
    requires IsTopN(processes, multiset(a), n, value) && IsTopN(processes, multiset(b), n, value)
    ensures multiset(Map(value, a)) == multiset(Map(value, b))
  {
    var restA := Listing(processes - multiset(a));
    var restB := Listing(processes - multiset(b));
    assert multiset(a + restA) == processes == multiset(b + restB);
    MapPermutation(value, a + restA, b + restB);
    MapConcat(value, a, restA);
    MapConcat(value, b, restB);
    assert |a| == |multiset(a)| && |b| == |multiset(b)|;
    var upA, lowA := multiset(Map(value, a)), multiset(Map(value, restA));
    var upB, lowB := multiset(Map(value, b)), multiset(Map(value, restB));
    ImageDominated(a, restA, value);
    ImageDominated(b, restB, value);
    assert |upA| == |Map(value, a)| && |upB| == |Map(value, b)|;
    DominatingHalves(upA, lowA, upB, lowB);
  }

  lemma ImageDominated(up: seq<Process>, low: seq<Process>, value: Metric)
    requires forall x, y :: x in multiset(low) && y in multiset(up) ==> value(x) <= value(y)
    ensures forall x, y :: x in multiset(Map(value, low)) && y in multiset(Map(value, up)) ==> x <= y
  {
    forall x, y | x in multiset(Map(value, low)) && y in multiset(Map(value, up)) ensures x <= y {
      var i :| 0 <= i < |low| && Map(value, low)[i] == x;
      var j :| 0 <= j < |up| && Map(value, up)[j] == y;
      assert low[i] in multiset(low) && up[j] in multiset(up);
    }
  }

  /** Both selections on the same processes: the first n items of the rearranged array and
      the heap's result hold the same values. */
  lemma SelectAgreesWithHeap(before: seq<Process>, after: seq<Process>, top: seq<Process>, n: nat, value: Metric)
    requires 1 <= n <= |before|
    requires RangePermuted(after, before, 0, |before|) && Split(after, value, 0, n - 1, |before| - 1)
    requires IsTopN(multiset(before), multiset(top), n, value)
    ensures multiset(Map(value, after[..n])) == multiset(Map(value, top))
  {
    assert after[0..|after|] == after && before[0..|before|] == before;
    FirstItemsAreTopN(after, n, value);
    TopNValuesUnique(multiset(before), after[..n], top, n, value);
  }
}
