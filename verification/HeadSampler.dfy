/** The head sampler's decision on a trace: the two halves of the trace identifier are
    combined bit by bit and the result, read as a fraction of the word size, is compared
    with the sampling probability.  Exact reals stand for the floating-point numbers. */
module HeadSampler {
  import opened Telemetry
  import opened Words

  // ----- exclusive or -----

  function Xor(a: nat, b: nat): (x: nat)
    decreases a + b
  {
    if a == 0 && b == 0 then 0
    else 2 * Xor(a / 2, b / 2) + if a % 2 == b % 2 then 0 else 1
  }

  function Bit(a: nat, k: nat): nat {
    if k == 0 then a % 2 else Bit(a / 2, k - 1)
  }

  /** Each bit of the result is set exactly if the two bits differ. */
  lemma {:induction false} XorBits(a: nat, b: nat, k: nat)
    ensures Bit(Xor(a, b), k) == if Bit(a, k) == Bit(b, k) then 0 else 1
    decreases k
  {
    XorHalves(a, b);
    if k == 0 {
    } else {
      XorBits(a / 2, b / 2, k - 1);
    }
  }

  lemma XorHalves(a: nat, b: nat)
    ensures Xor(a, b) / 2 == Xor(a / 2, b / 2)
    ensures Xor(a, b) % 2 == if a % 2 == b % 2 then 0 else 1
  {
  }

  /** Combining twice with the same word gives the other word back. */
  lemma {:induction false} XorInvolution(a: nat, b: nat)
    ensures Xor(a, Xor(a, b)) == b
    decreases a + b
  {
    if a == 0 && b == 0 {
    } else {
      XorInvolution(a / 2, b / 2);
      XorHalves(a, b);
    }
  }

  function Pow2(w: nat): (p: nat)
    ensures p >= 1
  {
    if w == 0 then 1 else 2 * Pow2(w - 1)
  }

  lemma {:induction false} XorRange(a: nat, b: nat, w: nat)
    requires a < Pow2(w) && b < Pow2(w)
    ensures Xor(a, b) < Pow2(w)
  {
    if w == 0 {
    } else {
      XorRange(a / 2, b / 2, w - 1);
    }
  }

  lemma {:induction false} BytesOfBits(count: nat)
    ensures Pow2(8 * count) == Pow256(count)
  {
    if count == 0 {
    } else {
      BytesOfBits(count - 1);
      var w := 8 * (count - 1);
      assert Pow2(w + 2) == 4 * Pow2(w);
      assert Pow2(w + 4) == 4 * Pow2(w + 2);
      assert Pow2(w + 6) == 4 * Pow2(w + 4);
      assert Pow2(w + 8) == 4 * Pow2(w + 6);
    }
  }

  lemma XorWord(a: nat, b: nat)
    requires a < WORD && b < WORD
    ensures Xor(a, b) < WORD
  {
    BytesOfBits(8);
    XorRange(a, b, 64);
  }

  // ----- the decision -----

  /** The hash of an identifier; anything but sixteen bytes hashes to zero. */
  function Hash(id: seq<byte>): nat {
    if |id| != 16 then 0 else Xor(FromBigEndian(id[..8]), FromBigEndian(id[8..]))
  }

  /** The lower bits of a number come from its remainder, the others from its quotient. */
  lemma {:induction false} ShiftedBit(x: nat, b: nat, w: nat, k: nat)
    requires b < Pow2(w)
    ensures Bit(Pow2(w) * x + b, k) == if k < w then Bit(b, k) else Bit(x, k - w)
    decreases w
  {
    if w == 0 {
    } else {
      var y := Pow2(w - 1) * x;
      assert Pow2(w) * x == 2 * y;
      assert (2 * y + b) / 2 == y + b / 2 && (2 * y + b) % 2 == b % 2;
      if k > 0 {
        ShiftedBit(x, b / 2, w - 1, k - 1);
      }
    }
  }

  lemma {:induction false} BigEndianBit(bytes: seq<byte>, k: nat)
    requires k < 8 * |bytes|
    ensures Bit(FromBigEndian(bytes), k) == Bit(bytes[|bytes| - 1 - k / 8], k % 8)
    decreases |bytes|
  {
    var m := |bytes| - 1;
    BytesOfBits(1);
    ShiftedBit(FromBigEndian(bytes[..m]), bytes[m], 8, k);
    if k < 8 {
    } else {
      BigEndianBit(bytes[..m], k - 8);
    }
  }

  /** Each bit of the hash is set exactly if the bits at its place in the two halves of the
      identifier differ, the first byte of a half holding its highest bits. */
  lemma HashBit(id: seq<byte>, k: nat)
    requires |id| == 16 && k < 64
    ensures Bit(Hash(id), k) == if Bit(id[7 - k / 8], k % 8) == Bit(id[15 - k / 8], k % 8) then 0 else 1
  {
    BigEndianBit(id[..8], k);
    BigEndianBit(id[8..], k);
    XorBits(FromBigEndian(id[..8]), FromBigEndian(id[8..]), k);
  }

  /** The threshold test, with the hash divided by the given scale. */
  predicate Below(hash: nat, p: real, scale: nat)
    requires scale > 0
  {
    hash as real / scale as real < p
  }

  /** The scale is the largest word converted to floating point, which is the word size. */
  predicate ShouldSample(id: seq<byte>, p: real) {
    Below(Hash(id), p, WORD)
  }

  /** The decision of the whole processor, which tests nothing from full probability on. */
  predicate Keeps(id: seq<byte>, p: real) {
    p >= 1.0 || ShouldSample(id, p)
  }

  /** The least word that fails the test at probability p. */
  function Threshold(p: real): (t: nat)
    ensures t <= WORD
  {
    if p <= 0.0 then 0
    else if p >= 1.0 then WORD
    else
      var x := p * WORD as real;
      if x == x.Floor as real then x.Floor else x.Floor + 1
  }

  lemma BelowThreshold(hash: nat, p: real)
    requires hash < WORD
    ensures Below(hash, p, WORD) <==> hash < Threshold(p)
  {
  }

  /** The identifier with the given high half and hash. */
  function IdOf(high: nat, hash: nat): (id: seq<byte>)
    ensures |id| == 16
  {
    BigEndian(high, 8) + BigEndian(Xor(high, hash), 8)
  }

  /** With the high half fixed, low halves and hashes correspond one to one: every hash has
      the identifier IdOf gives it, and every identifier is the one of its hash. */
  lemma HashOfId(high: nat, hash: nat)
    requires high < WORD && hash < WORD
    ensures Hash(IdOf(high, hash)) == hash
    ensures FromBigEndian(IdOf(high, hash)[..8]) == high
  {
    XorWord(high, hash);
    BigEndianDecodes(high, 8);
    BigEndianDecodes(Xor(high, hash), 8);
    var id := IdOf(high, hash);
    assert id[..8] == BigEndian(high, 8) && id[8..] == BigEndian(Xor(high, hash), 8);
    XorInvolution(high, hash);
  }

  lemma IdOfHash(id: seq<byte>)
    requires |id| == 16
    ensures Hash(id) < WORD && FromBigEndian(id[..8]) < WORD
    ensures IdOf(FromBigEndian(id[..8]), Hash(id)) == id
  {
    BigEndianEncodes(id[..8]);
    BigEndianEncodes(id[8..]);
    var high, low := FromBigEndian(id[..8]), FromBigEndian(id[8..]);
    XorWord(high, low);
    XorInvolution(high, low);
    assert id == id[..8] + id[8..];
  }

  // ----- counting the identifiers that are kept -----

  predicate InGrid(x: (nat, nat), m: nat, t: nat) {
    x.0 < m && x.1 < t
  }

  ghost function Row(h: nat, t: nat): (s: set<(nat, nat)>)
    ensures forall x :: x in s <==> x.0 == h && x.1 < t
  {
    if t == 0 then {} else Row(h, t - 1) + {(h, t - 1)}
  }

  lemma {:induction false} RowSize(h: nat, t: nat)
    ensures |Row(h, t)| == t
  {
    if t == 0 {
    } else {
      RowSize(h, t - 1);
    }
  }

  /** All pairs of a high half below m and a hash below t. */
  ghost function Grid(m: nat, t: nat): (s: set<(nat, nat)>)
    ensures forall x :: x in s <==> InGrid(x, m, t)
  {
    if m == 0 then {} else Grid(m - 1, t) + Row(m - 1, t)
  }

  function Cells(m: nat, t: nat): nat {
    if m == 0 then 0 else Cells(m - 1, t) + t
  }

  lemma {:induction false} CellsProduct(m: nat, t: nat)
    ensures Cells(m, t) == m * t
  {
    if m == 0 {
    } else {
      CellsProduct(m - 1, t);
      assert m * t == (m - 1) * t + t;
    }
  }

  lemma {:induction false} GridSize(m: nat, t: nat, grid: set<(nat, nat)>)
    requires forall x :: x in grid <==> InGrid(x, m, t)
    ensures |grid| == Cells(m, t)
  {
    if m == 0 {
      assert grid == {};
    } else {
      var fewer, row := Grid(m - 1, t), Row(m - 1, t);
      GridSize(m - 1, t, fewer);
      RowSize(m - 1, t);
      DisjointSize(fewer, row);
      assert grid == fewer + row;
    }
  }

  lemma DisjointSize<T>(a: set<T>, b: set<T>)
    requires a !! b
    ensures |a + b| == |a| + |b|
  {
  }

  ghost function IdsOf(pairs: set<(nat, nat)>): set<seq<byte>> {
    set x | x in pairs :: IdOf(x.0, x.1)
  }

  lemma {:induction false} IdsOfSize(pairs: set<(nat, nat)>)
    requires forall x :: x in pairs ==> x.0 < WORD && x.1 < WORD
    ensures |IdsOf(pairs)| == |pairs|
    decreases |pairs|
  {
    if pairs == {} {
      assert IdsOf(pairs) == {};
    } else {
      var x :| x in pairs;
      var rest := pairs - {x};
      IdsOfSize(rest);
      var id := IdOf(x.0, x.1);
      assert IdsOf(pairs) == IdsOf(rest) + {id};
      assert id !in IdsOf(rest) by {
        forall y | y in rest ensures IdOf(y.0, y.1) != id {
          HashOfId(x.0, x.1);
          HashOfId(y.0, y.1);
        }
      }
    }
  }

  /** The trace identifiers kept at probability p. */
  ghost function KeptIds(p: real): set<seq<byte>> {
    IdsOf(Grid(WORD, Threshold(p)))
  }

  /** The set is the right one: it holds exactly the sixteen-byte identifiers that are kept. */
  lemma KeptIdsExact(p: real, id: seq<byte>)
    requires |id| == 16
    ensures id in KeptIds(p) <==> Keeps(id, p)
  {
    IdOfHash(id);
    BelowThreshold(Hash(id), p);
    if Keeps(id, p) {
      InKeptIds(p, FromBigEndian(id[..8]), Hash(id));
    }
    if id in KeptIds(p) {
      var x :| x in Grid(WORD, Threshold(p)) && IdOf(x.0, x.1) == id;
      HashOfId(x.0, x.1);
    }
  }

  lemma InKeptIds(p: real, high: nat, hash: nat)
    requires high < WORD && hash < Threshold(p)
    ensures IdOf(high, hash) in KeptIds(p)
  {
    var x := (high, hash);
    assert x in Grid(WORD, Threshold(p));
    assert IdOf(x.0, x.1) in KeptIds(p);
  }

  /** The hash is exactly uniform: of all trace identifiers, 2^64 times the number of words
      below the threshold are kept, whatever the probability. */
  lemma KeptShare(p: real)
    ensures |KeptIds(p)| == WORD * Threshold(p)
  {
    GridSize(WORD, Threshold(p), Grid(WORD, Threshold(p)));
    CellsProduct(WORD, Threshold(p));
    IdsOfSize(Grid(WORD, Threshold(p)));
  }

  /** Raising the probability only adds identifiers. */
  lemma KeptMonotone(p1: real, p2: real)
    requires p1 <= p2
    ensures KeptIds(p1) <= KeptIds(p2)
  {
    forall id | id in KeptIds(p1) ensures id in KeptIds(p2) {
      var x :| x in Grid(WORD, Threshold(p1)) && IdOf(x.0, x.1) == id;
      InKeptIds(p2, x.0, x.1);
    }
  }

  /** From full probability on the test alone would keep everything too.  Were the hash
      divided by the largest word, at exactly full probability it would miss the largest
      hash, and nothing else. */
  lemma FastPathAgrees(id: seq<byte>, p: real)
    requires p >= 1.0
    ensures ShouldSample(id, p)
    ensures !Below(Hash(id), p, WORD - 1) <==> p == 1.0 && Hash(id) == WORD - 1
  {
    if |id| == 16 {
      IdOfHash(id);
    }
    var h := Hash(id) as real / (WORD - 1) as real;
    assert h <= 1.0;
    assert h == 1.0 <==> Hash(id) == WORD - 1;
  }
}
