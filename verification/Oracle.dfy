/** The price oracle: a ring buffer of the last 100 points, refined by the unbounded feed history. */
module Oracle {

  const SIZE: int := 100
  const MIN_DATA_POINTS: int := 12

  datatype PricePoint = PricePoint(price: real, timestamp: real, volume: real)

  /** The value-initialized slot of an empty buffer. */
  const EMPTY: PricePoint := PricePoint(0.0, 0.0, 0.0)

  /** The points of a slot list in order of age, oldest first: the scan starts at the next slot to be written. */
  function Rotated(slots: seq<PricePoint>, index: nat): seq<PricePoint>
    requires index < |slots|
  {
    slots[index..] + slots[..index]
  }

  /** The slots that hold a fed point. */
  function Occupied(s: seq<PricePoint>): seq<PricePoint> {
    if s == [] then []
    else
      var before := Occupied(s[..|s| - 1]);
      if s[|s| - 1].timestamp > 0.0 then before + [s[|s| - 1]] else before
  }

  /** The last min(n, 100) points fed. */
  function Window(history: seq<PricePoint>): seq<PricePoint> {
    if |history| <= SIZE then history else history[|history| - SIZE..]
  }

  function Padding(n: nat): (s: seq<PricePoint>)
    ensures |s| == n && forall k :: 0 <= k < n ==> s[k] == EMPTY
  {
    seq(n, _ => EMPTY)
  }

  /** What the ring holds, oldest first, after this history: empty slots, then the window. */
  function Expected(history: seq<PricePoint>): seq<PricePoint> {
    Padding(SIZE - |Window(history)|) + Window(history)
  }

  ghost predicate Stamped(history: seq<PricePoint>) {
    forall k :: 0 <= k < |history| ==> history[k].timestamp > 0.0
  }

  ghost predicate Refines(slots: seq<PricePoint>, index: nat, history: seq<PricePoint>) {
    |slots| == SIZE && index == |history| % 100 && Stamped(history) && Rotated(slots, index) == Expected(history)
  }

  lemma ExpectedGrows(history: seq<PricePoint>, p: PricePoint)
    ensures Expected(history + [p]) == Expected(history)[1..] + [p]
  {
    if |history| < SIZE {
      assert Window(history + [p]) == history + [p];
    } else {
      assert Window(history + [p]) == Window(history)[1..] + [p];
    }
  }

  lemma OverwriteOldest(slots: seq<PricePoint>, index: nat, p: PricePoint)
    requires |slots| == SIZE && index < SIZE
    ensures Rotated(slots[index := p], (index + 1) % 100) == Rotated(slots, index)[1..] + [p]
  {
    if index == 99 {
      assert Rotated(slots[index := p], 0) == slots[..99] + [p];
    } else {
      assert Rotated(slots[index := p], index + 1) == slots[index + 1..] + (slots[..index] + [p]);
    }
  }

  /** One feed: overwriting the oldest slot and moving the index appends to the history. */
  lemma FeedRefines(slots: seq<PricePoint>, index: nat, history: seq<PricePoint>, p: PricePoint)
    requires Refines(slots, index, history) && p.timestamp > 0.0
    ensures Refines(slots[index := p], (index + 1) % 100, history + [p])
  {
    ExpectedGrows(history, p);
    OverwriteOldest(slots, index, p);
    assert (|history| + 1) % 100 == (index + 1) % 100;
  }

  lemma {:induction false} OccupiedConcat(a: seq<PricePoint>, b: seq<PricePoint>)
    ensures Occupied(a + b) == Occupied(a) + Occupied(b)
    decreases |b|
  {
    if b == [] {
      assert a + b == a;
    } else {
      var n := |b| - 1;
      OccupiedConcat(a, b[..n]);
      assert (a + b)[..|a + b| - 1] == a + b[..n];
    }
  }

  lemma {:induction false} OccupiedOfStamped(s: seq<PricePoint>)
    requires Stamped(s)
    ensures Occupied(s) == s
  {
    if s != [] {
      OccupiedOfStamped(s[..|s| - 1]);
      assert s == s[..|s| - 1] + [s[|s| - 1]];
    }
  }

  lemma {:induction false} OccupiedOfEmpty(s: seq<PricePoint>)
    requires forall k :: 0 <= k < |s| ==> s[k] == EMPTY
    ensures Occupied(s) == []
  {
    if s != [] {
      OccupiedOfEmpty(s[..|s| - 1]);
    }
  }

  /** Scanning from the index and skipping empty slots yields exactly the last min(n, 100) points in feed order. */
  lemma ScanIsWindow(slots: seq<PricePoint>, index: nat, history: seq<PricePoint>)
    requires Refines(slots, index, history)
    ensures Occupied(Rotated(slots, index)) == Window(history)
  {
    hide Occupied;
    var w := Window(history);
    assert Stamped(w);
    OccupiedConcat(Padding(SIZE - |w|), w);
    OccupiedOfEmpty(Padding(SIZE - |w|));
    OccupiedOfStamped(w);
  }

  // ---- The weighted mean ----

  function Weight(p: PricePoint): real { if p.volume > 0.0 then p.volume else 1.0 }

  function Value(p: PricePoint): real { p.price * Weight(p) }

  function TotalPrice(s: seq<PricePoint>): real {
    if s == [] then 0.0 else TotalPrice(s[..|s| - 1]) + Value(s[|s| - 1])
  }

  function TotalWeight(s: seq<PricePoint>): real {
    if s == [] then 0.0 else TotalWeight(s[..|s| - 1]) + Weight(s[|s| - 1])
  }

  lemma {:induction false} TotalsConcat(a: seq<PricePoint>, b: seq<PricePoint>)
    ensures TotalPrice(a + b) == TotalPrice(a) + TotalPrice(b) && TotalWeight(a + b) == TotalWeight(a) + TotalWeight(b)
    decreases |b|
  {
    hide Value, Weight;
    if b == [] {
      assert a + b == a;
    } else {
      var n := |b| - 1;
      TotalsConcat(a, b[..n]);
      assert (a + b)[..|a + b| - 1] == a + b[..n];
    }
  }

  /** Slot order and feed order give the same count and totals. */
  lemma SlotOrderTotals(slots: seq<PricePoint>, index: nat)
    requires index < |slots|
    ensures |Occupied(slots)| == |Occupied(Rotated(slots, index))|
    ensures TotalPrice(Occupied(slots)) == TotalPrice(Occupied(Rotated(slots, index)))
    ensures TotalWeight(Occupied(slots)) == TotalWeight(Occupied(Rotated(slots, index)))
  {
    var a, b := slots[..index], slots[index..];
    assert slots == a + b;
    OccupiedConcat(a, b);
    OccupiedConcat(b, a);
    TotalsConcat(Occupied(a), Occupied(b));
    TotalsConcat(Occupied(b), Occupied(a));
  }

  lemma {:induction false} MeanBounds(s: seq<PricePoint>, lo: real, hi: real)
    requires forall k :: 0 <= k < |s| ==> lo <= s[k].price <= hi
    ensures lo * TotalWeight(s) <= TotalPrice(s) <= hi * TotalWeight(s)
    ensures s != [] ==> TotalWeight(s) > 0.0
  {
    hide Value, Weight;
    if s != [] {
      var n := |s| - 1;
      MeanBounds(s[..n], lo, hi);
      var before, w := TotalWeight(s[..n]), Weight(s[n]);
      assert n == 0 ==> before == 0.0;
      PointBetween(lo, s[n], hi);
      Distribute(lo, before, w);
      Distribute(hi, before, w);
    }
  }

  lemma Distribute(a: real, x: real, y: real)
    ensures a * (x + y) == a * x + a * y
  {
  }

  lemma PointBetween(lo: real, p: PricePoint, hi: real)
    requires lo <= p.price <= hi
    ensures lo * Weight(p) <= Value(p) <= hi * Weight(p) && Weight(p) > 0.0
  {
    ScaleBetween(lo, p.price, hi, Weight(p));
  }

  lemma ScaleBetween(lo: real, x: real, hi: real, w: real)
    requires lo <= x <= hi && w > 0.0
    ensures lo * w <= x * w <= hi * w
  {
    assert (x - lo) * w >= 0.0 && (hi - x) * w >= 0.0;
  }

  function Change(first: real, last: real): real { if first > 0.0 then (last - first) / first else 0.0 }

  /** The report as a function of the window alone: nothing below 12 points, otherwise the weighted mean and the
      change from the oldest to the newest retained price. */
  function Report(w: seq<PricePoint>): (r: (real, real)) {
    if |w| < MIN_DATA_POINTS || TotalWeight(w) == 0.0 then (0.0, 0.0)
    else (TotalPrice(w) / TotalWeight(w), Change(w[0].price, w[|w| - 1].price))
  }

  /** The reported mean lies between the smallest and the largest price of the window. */
  lemma MeanWithinWindow(w: seq<PricePoint>, lo: real, hi: real)
    requires |w| >= MIN_DATA_POINTS && forall k :: 0 <= k < |w| ==> lo <= w[k].price <= hi
    ensures lo <= Report(w).0 <= hi
  {
    hide TotalPrice, TotalWeight;
    MeanBounds(w, lo, hi);
    var t, total := TotalWeight(w), TotalPrice(w);
    var mean := total / t;
    assert mean * t == total;
    if mean < lo { assert (lo - mean) * t > 0.0; }
    if mean > hi { assert (mean - hi) * t > 0.0; }
  }

  /** The report in full: zeros below 12 points; otherwise the price change from the oldest to the newest point of the
      window, relative to the oldest, and the mean that balances the weighted deviations. */
  lemma ReportExactly(w: seq<PricePoint>)
    ensures |w| < 12 ==> Report(w) == (0.0, 0.0)
    ensures |w| >= 12 ==>
      var (mean, change) := Report(w);
      mean * TotalWeight(w) == TotalPrice(w)
      && (w[0].price > 0.0 ==> change * w[0].price == w[|w| - 1].price - w[0].price)
      && (w[0].price <= 0.0 ==> change == 0.0)
  {
    hide TotalPrice, TotalWeight;
    if |w| >= 12 {
      WeightPositive(w);
    }
  }

  lemma {:induction false} WeightPositive(s: seq<PricePoint>)
    requires s != []
    ensures TotalWeight(s) > 0.0
  {
    if |s| > 1 { WeightPositive(s[..|s| - 1]); }
  }

  /** A point counts with its traded volume, or once if none was traded. */
  lemma WeightExactly(p: PricePoint)
    ensures TotalWeight([p]) == (if p.volume > 0.0 then p.volume else 1.0)
    ensures TotalPrice([p]) == (if p.volume > 0.0 then p.price * p.volume else p.price)
  {
    assert [p][..0] == [];
  }

  /** The window is the last 100 points of the feed, or all of them. */
  lemma WindowExactly(history: seq<PricePoint>)
    ensures
      var w := Window(history);
      |w| == (if |history| < 100 then |history| else 100) && forall k :: 0 <= k < |w| ==> w[k] == history[|history| - |w| + k]
  {
  }

  // ---- The object ----

  class VolatilityOracle {
    const slots: array<PricePoint>
    var index: nat
    var lastUpdate: real
    ghost var history: seq<PricePoint>

    ghost predicate Consistent()
      reads this, slots
    {
      slots.Length == SIZE && Refines(slots[..], index, history)
    }

    constructor ()
      ensures Consistent() && history == [] && fresh(slots)
    {
      slots := new PricePoint[100](_ => EMPTY);
      index, lastUpdate, history := 0, 0.0, [];
      new;
      assert Rotated(slots[..], 0) == Expected([]);
    }

    /** now is the clock, which is past the epoch. */
    method FeedPrice(price: real, volume: real, now: real)
      requires Consistent() && now > 0.0
      modifies this, slots
      ensures Consistent() && history == old(history) + [PricePoint(price, now, volume)] && lastUpdate == now
    {
      ghost var p := PricePoint(price, now, volume);
      FeedRefines(slots[..], index, history, p);
      ghost var before := slots[..];
      slots[index] := PricePoint(price, now, volume);
      assert slots[..] == before[index := p];
      index := (index + 1) % 100;
      lastUpdate := now;
      history := history + [p];
    }

    /** The first loop: totals in slot order. */
    method SumSlots() returns (totalPrice: real, totalVolume: real, count: nat)
      requires Consistent()
      ensures totalPrice == TotalPrice(Occupied(slots[..])) && totalVolume == TotalWeight(Occupied(slots[..]))
      ensures count == |Occupied(slots[..])|
    {
      hide Refines, Occupied, TotalPrice, TotalWeight;
      ghost var all := slots[..];
      totalPrice, totalVolume, count := 0.0, 0.0, 0;
      var i := 0;
      EmptyTotals();
      assert all[..0] == [];
      while i < SIZE
        invariant 0 <= i <= SIZE && count == |Occupied(all[..i])|
        invariant totalPrice == TotalPrice(Occupied(all[..i])) && totalVolume == TotalWeight(Occupied(all[..i]))
      {
        var p := slots[i];
        OccupiedStep(all, i);
        if p.timestamp > 0.0 {
          TotalsStep(Occupied(all[..i]), p);
          if p.volume > 0.0 {
            totalPrice := totalPrice + p.price * p.volume;
            totalVolume := totalVolume + p.volume;
          } else {
            totalPrice := totalPrice + p.price;
            totalVolume := totalVolume + 1.0;
          }
          count := count + 1;
        }
        i := i + 1;
      }
      assert all[..i] == all;
    }

    /** The second loop: the oldest and the newest retained price. */
    method ScanEnds() returns (first: real, last: real)
      requires Consistent() && Occupied(Rotated(slots[..], index)) != []
      ensures
        var w := Occupied(Rotated(slots[..], index));
        first == w[0].price && last == w[|w| - 1].price
    {
      hide Refines, Occupied, Rotated;
      IndexInRange(slots[..], index, history);
      ghost var ring := Rotated(slots[..], index);
      var found := false;
      ghost var seen: seq<PricePoint> := [];
      first, last := 0.0, 0.0;
      var i := 0;
      EmptyTotals();
      RingAt(slots[..], index, 0);
      assert ring[..0] == [];
      while i < SIZE
        invariant 0 <= i <= SIZE && seen == Occupied(ring[..i]) && found == (seen != [])
        invariant found ==> first == seen[0].price && last == seen[|seen| - 1].price
      {
        var slot := (index + i) % 100;
        RingAt(slots[..], index, i);
        OccupiedStep(ring, i);
        if slots[slot].timestamp > 0.0 {
          if !found {
            first := slots[slot].price;
            found := true;
          }
          last := slots[slot].price;
          seen := seen + [slots[slot]];
        }
        i := i + 1;
      }
      assert ring[..i] == ring;
    }

    method ComputeTwap() returns (twap: real, change: real)
      requires Consistent()
      ensures (twap, change) == Report(Window(history))
    {
      hide Occupied, TotalPrice, TotalWeight, Window, Rotated;
      var totalPrice, totalVolume, count := SumSlots();
      SlotOrderTotals(slots[..], index);
      ScanIsWindow(slots[..], index, history);
      if count < MIN_DATA_POINTS || totalVolume == 0.0 {
        return 0.0, 0.0;
      }
      twap := totalPrice / totalVolume;
      var first, last := ScanEnds();
      change := if first > 0.0 then (last - first) / first else 0.0;
    }
  }

  lemma IndexInRange(slots: seq<PricePoint>, index: nat, history: seq<PricePoint>)
    requires Refines(slots, index, history)
    ensures |slots| == SIZE && index < SIZE
  {
  }

  lemma RingAt(s: seq<PricePoint>, index: nat, i: nat)
    requires |s| == SIZE && index < SIZE && i < SIZE
    ensures |Rotated(s, index)| == SIZE && Rotated(s, index)[i] == s[(index + i) % 100]
  {
    assert (index + i) % 100 == if index + i < 100 then index + i else index + i - 100;
  }

  lemma OccupiedStep(s: seq<PricePoint>, i: nat)
    requires i < |s|
    ensures Occupied(s[..i + 1]) == if s[i].timestamp > 0.0 then Occupied(s[..i]) + [s[i]] else Occupied(s[..i])
  {
    assert s[..i + 1][..i] == s[..i];
  }

  lemma TotalsStep(s: seq<PricePoint>, p: PricePoint)
    ensures TotalPrice(s + [p]) == TotalPrice(s) + Value(p)
    ensures TotalWeight(s + [p]) == TotalWeight(s) + Weight(p)
  {
    hide Value, Weight;
    assert (s + [p])[..|s|] == s;
  }

  lemma EmptyTotals()
    ensures Occupied([]) == [] && TotalPrice([]) == 0.0 && TotalWeight([]) == 0.0
  {
  }
}
