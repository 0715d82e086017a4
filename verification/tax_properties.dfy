/** Properties of the tax engine that relate several calls or whole runs. */
module TaxProperties {
  import opened Results
  import opened Transactions
  import opened TaxCalculator
  import RealEarnings

  /** The lots the buys of `txs` open, in order. */
  function OpenedLots(txs: seq<TransactionData>): seq<Position>
  {
    if |txs| == 0 then []
    else (if txs[0].kind == Buy then [OpenLot(txs[0])] else []) + OpenedLots(txs[1..])
  }

  /** Without sells, a replay only appends the lots its buys open, and the
      gains stay what they were. */
  lemma {:induction false} ProcessWithoutSells(l: Ledger, txs: seq<TransactionData>, how: Method)
    decreases |txs|
    requires forall k :: 0 <= k < |txs| ==> txs[k].kind != Sell
    ensures Process(l, txs, how) == Ledger(l.lots + OpenedLots(txs), l.shortTermGains, l.longTermGains)
  {
    if |txs| > 0 {
      var next := Step(l, txs[0], how);
      ProcessWithoutSells(next, txs[1..], how);
      if txs[0].kind == Buy {
        assert next.lots + OpenedLots(txs[1..]) == l.lots + ([OpenLot(txs[0])] + OpenedLots(txs[1..]));
      } else {
        assert [] + OpenedLots(txs[1..]) == OpenedLots(txs[1..]);
      }
    }
  }

  /** A batch with no sell realises nothing and owes nothing. */
  lemma CalculateTaxWithoutSells(txs: seq<TransactionData>, country: Country, how: Method)
    requires forall k :: 0 <= k < |txs| ==> txs[k].kind != Sell
    ensures CalculateTax(txs, country, how).shortTermGains == 0.0
    ensures CalculateTax(txs, country, how).longTermGains == 0.0
    ensures CalculateTax(txs, country, how).totalTax == 0.0
  {
    var sorted := SortByTime(txs);
    assert forall k :: 0 <= k < |sorted| ==> sorted[k].kind != Sell;
    ProcessWithoutSells(EmptyLedger, sorted, how);
  }

  /** Starting from non-negative lots, and with no negative buy, every lot's
      remaining quantity stays non-negative through a replay. */
  lemma {:induction false} ProcessKeepsLotsNonNegative(l: Ledger, txs: seq<TransactionData>, how: Method)
    decreases |txs|
    requires forall i :: 0 <= i < |l.lots| ==> l.lots[i].quantity >= 0.0
    requires forall k :: 0 <= k < |txs| && txs[k].kind == Buy ==> txs[k].quantity >= 0.0
    ensures forall i :: 0 <= i < |Process(l, txs, how).lots| ==> Process(l, txs, how).lots[i].quantity >= 0.0
  {
    if |txs| > 0 {
      var next := Step(l, txs[0], how);
      assert forall i :: 0 <= i < |next.lots| ==> next.lots[i].quantity >= 0.0;
      ProcessKeepsLotsNonNegative(next, txs[1..], how);
    }
  }

  /** A trade list already in time order is processed in its own order. */
  lemma SortedInputKeepsOrder(txs: seq<TransactionData>)
    requires forall j, k :: 0 <= j < k < |txs| ==> txs[j].timestamp <= txs[k].timestamp
    ensures SortByTime(txs) == txs
  {
    var o := TimeOrder(txs);
    forall j, k | 0 <= j < k < |o|
      ensures o[j] < o[k]
    {
      OrderedPair(txs, o[j], o[k]);
    }
    IncreasingPermutationIsIdentity(o, |txs|);
  }

  /** In time-sorted input, an index pair the time order lists as `a` before
      `c` is ascending. */
  lemma OrderedPair(txs: seq<TransactionData>, a: int, c: int)
    requires forall j, k :: 0 <= j < k < |txs| ==> txs[j].timestamp <= txs[k].timestamp
    requires 0 <= a < |txs| && 0 <= c < |txs|
    requires txs[a].timestamp <= txs[c].timestamp
    requires txs[a].timestamp == txs[c].timestamp ==> a < c
    ensures a < c
  {
  }

  /** An ascending sequence of `n` indices below `n` lists them all in order. */
  lemma IncreasingPermutationIsIdentity(o: seq<int>, n: int)
    requires |o| == n
    requires forall k :: 0 <= k < n ==> 0 <= o[k] < n
    requires forall j, k :: 0 <= j < k < n ==> o[j] < o[k]
    ensures forall k :: 0 <= k < n ==> o[k] == k
  {
    forall k | 0 <= k < n
      ensures o[k] == k
    {
      AtLeastIndex(o, n, k);
      AtMostIndex(o, n, k);
    }
  }

  lemma {:induction false} AtLeastIndex(o: seq<int>, n: int, k: int)
    requires |o| == n && 0 <= k < n
    requires forall k :: 0 <= k < n ==> 0 <= o[k] < n
    requires forall j, k :: 0 <= j < k < n ==> o[j] < o[k]
    ensures o[k] >= k
  {
    if k > 0 {
      AtLeastIndex(o, n, k - 1);
    }
  }

  lemma {:induction false} AtMostIndex(o: seq<int>, n: int, k: int)
    requires |o| == n && 0 <= k < n
    requires forall k :: 0 <= k < n ==> 0 <= o[k] < n
    requires forall j, k :: 0 <= j < k < n ==> o[j] < o[k]
    ensures o[k] <= k
    decreases n - k
  {
    if k < n - 1 {
      AtMostIndex(o, n, k + 1);
    }
  }

  /** A single open lot is the whole consumption order. */
  lemma SingleLotOrder(p: Position, asset: string, how: Method)
    requires IsOpenLotOf(p, asset)
    ensures MatchOrder([p], asset, how) == [0]
  {
    var lots := [p];
    var order := MatchOrder(lots, asset, how);
    assert OpenLotsFrom(lots, asset, 1) == [];
    assert OpenLotsFrom(lots, asset, 0) == [0];
    assert |order| == 1 by {
      assert order == StableSort.Sort([0], LotKeyOf(lots, how));
    }
  }

  /** Matching against a single lot takes the smaller of the two quantities. */
  lemma SingleLotMatch(p: Position, remaining: real)
    requires p.quantity > 0.0 && remaining > 0.0
    ensures var q := Min(remaining, p.quantity);
      MatchLots([p], [0], remaining) == Match([p.(quantity := p.quantity - q)], [Slice(p, q)], remaining - q)
  {
    var q := Min(remaining, p.quantity);
    var taken := [p.(quantity := p.quantity - q)];
    assert TakeFirst([p], [0], q) == taken;
    assert [0][1..] == [];
    assert MatchLots(taken, [], remaining - q) == Match(taken, [], remaining - q);
    assert [Slice(p, q)] + [] == [Slice(p, q)];
  }

  /** Booking one slice adds its gain to the bucket its holding period picks. */
  lemma BookOne(l: Ledger, s: Slice, t: TransactionData)
    requires s.lot.quantity > 0.0 && t.quantity > 0.0
    ensures Book(l, [s], t) ==
      if IsLongTerm(t.timestamp, s.lot.timestamp) then l.(longTermGains := l.longTermGains + SliceGain(s, t))
      else l.(shortTermGains := l.shortTermGains + SliceGain(s, t))
  {
    assert [s][1..] == [];
  }

  /** A sell against a ledger holding one open lot of its asset takes
      `min(sell quantity, lot quantity)` from it and books that slice's gain. */
  lemma SellAgainstOneLot(p: Position, st: real, lt: real, t: TransactionData, how: Method)
    requires p.asset == t.asset && p.quantity > 0.0 && t.quantity > 0.0
    ensures var q := Min(t.quantity, p.quantity);
      var gain := SliceGain(Slice(p, q), t);
      ApplySell(Ledger([p], st, lt), t, how) ==
        if IsLongTerm(t.timestamp, p.timestamp) then Ledger([p.(quantity := p.quantity - q)], st, lt + gain)
        else Ledger([p.(quantity := p.quantity - q)], st + gain, lt)
  {
    var q := Min(t.quantity, p.quantity);
    var taken := [p.(quantity := p.quantity - q)];
    SingleLotOrder(p, t.asset, how);
    SingleLotMatch(p, t.quantity);
    BookOne(Ledger(taken, st, lt), Slice(p, q), t);
  }

  /** Trades already in time order are replayed as given. */
  lemma CalculateTaxOfSorted(txs: seq<TransactionData>, country: Country, how: Method)
    requires forall j, k :: 0 <= j < k < |txs| ==> txs[j].timestamp <= txs[k].timestamp
    ensures CalculateTax(txs, country, how).shortTermGains == Process(EmptyLedger, txs, how).shortTermGains
    ensures CalculateTax(txs, country, how).longTermGains == Process(EmptyLedger, txs, how).longTermGains
  {
    SortedInputKeepsOrder(txs);
  }

  /** A replay of two trades is their two steps. */
  lemma ProcessTwo(l: Ledger, a: TransactionData, b: TransactionData, how: Method)
    ensures Process(l, [a, b], how) == Step(Step(l, a, how), b, how)
  {
    var l1 := Step(l, a, how);
    assert [a, b][1..] == [b];
    assert Process(l, [a, b], how) == Process(l1, [b], how);
    assert [b][1..] == [];
    assert Process(l1, [b], how) == Process(Step(l1, b, how), [], how);
  }

  /** The gain of a slice covering the whole of a lot's remaining quantity,
      sold by a sell of the same quantity. */
  lemma WholeSliceGain(p: Position, s: TransactionData)
    requires p.quantity > 0.0 && s.quantity == p.quantity
    ensures SliceGain(Slice(p, p.quantity), s) == (s.price - p.price) * p.quantity - p.fee - s.fee
  {
    var q := p.quantity;
    assert s.fee * q / s.quantity == s.fee;
    assert p.fee * q / p.quantity == p.fee;
  }

  /** One buy fully sold by one later sell of the same quantity gains the price
      difference on the whole quantity less both fees, in the bucket the
      holding period selects. */
  lemma SingleRoundTrip(b: TransactionData, s: TransactionData, country: Country, how: Method)
    requires b.kind == Buy && s.kind == Sell && b.asset == s.asset
    requires b.quantity > 0.0 && s.quantity == b.quantity
    requires b.timestamp <= s.timestamp
    ensures var r := CalculateTax([b, s], country, how);
      var gain := (s.price - b.price) * b.quantity - b.fee - s.fee;
      if IsLongTerm(s.timestamp, b.timestamp) then r.longTermGains == gain && r.shortTermGains == 0.0
      else r.shortTermGains == gain && r.longTermGains == 0.0
  {
    RoundTripGains(b, s, how);
    assert forall j, k :: 0 <= j < k < |[b, s]| ==> [b, s][j].timestamp <= [b, s][k].timestamp;
    CalculateTaxOfSorted([b, s], country, how);
  }

  /** A lot held exactly 365 days is still short-term: the holding period
      must strictly exceed a year. */
  lemma ExactYearIsShortTerm(b: TransactionData, s: TransactionData, country: Country, how: Method)
    requires b.kind == Buy && s.kind == Sell && b.asset == s.asset
    requires b.quantity > 0.0 && s.quantity == b.quantity
    requires s.timestamp == b.timestamp + 365 * 24 * 60 * 60 * 1000
    ensures var r := CalculateTax([b, s], country, how);
      r.shortTermGains == (s.price - b.price) * b.quantity - b.fee - s.fee && r.longTermGains == 0.0
  {
    assert !IsLongTerm(s.timestamp, b.timestamp);
    SingleRoundTrip(b, s, country, how);
  }

  /** One millisecond past a year, the same round trip is long-term. */
  lemma PastYearIsLongTerm(b: TransactionData, s: TransactionData, country: Country, how: Method)
    requires b.kind == Buy && s.kind == Sell && b.asset == s.asset
    requires b.quantity > 0.0 && s.quantity == b.quantity
    requires s.timestamp == b.timestamp + 365 * 24 * 60 * 60 * 1000 + 1
    ensures var r := CalculateTax([b, s], country, how);
      r.longTermGains == (s.price - b.price) * b.quantity - b.fee - s.fee && r.shortTermGains == 0.0
  {
    assert IsLongTerm(s.timestamp, b.timestamp);
    SingleRoundTrip(b, s, country, how);
  }

  /** The replay behind `SingleRoundTrip`. */
  lemma RoundTripGains(b: TransactionData, s: TransactionData, how: Method)
    requires b.kind == Buy && s.kind == Sell && b.asset == s.asset
    requires b.quantity > 0.0 && s.quantity == b.quantity
    ensures var l := Process(EmptyLedger, [b, s], how);
      var gain := (s.price - b.price) * b.quantity - b.fee - s.fee;
      if IsLongTerm(s.timestamp, b.timestamp) then l.longTermGains == gain && l.shortTermGains == 0.0
      else l.shortTermGains == gain && l.longTermGains == 0.0
  {
    var p := OpenLot(b);
    var q := Min(s.quantity, p.quantity);
    assert q == p.quantity;
    var g := SliceGain(Slice(p, q), s);
    assert g == (s.price - b.price) * b.quantity - b.fee - s.fee by {
      WholeSliceGain(p, s);
    }
    var l := Process(EmptyLedger, [b, s], how);
    assert l.shortTermGains == (if IsLongTerm(s.timestamp, b.timestamp) then 0.0 else g) by {
      BuyThenSell(b, s, how);
    }
    assert l.longTermGains == (if IsLongTerm(s.timestamp, b.timestamp) then g else 0.0) by {
      BuyThenSell(b, s, how);
    }
  }

  /** A buy followed by a sell of its asset replays as that sell against the
      buy's lot alone. */
  lemma BuyThenSell(b: TransactionData, s: TransactionData, how: Method)
    requires b.kind == Buy && s.kind == Sell && b.asset == s.asset
    requires b.quantity > 0.0 && s.quantity > 0.0
    ensures var p := OpenLot(b);
      var q := Min(s.quantity, p.quantity);
      var gain := SliceGain(Slice(p, q), s);
      Process(EmptyLedger, [b, s], how) ==
        if IsLongTerm(s.timestamp, b.timestamp) then Ledger([p.(quantity := p.quantity - q)], 0.0, gain)
        else Ledger([p.(quantity := p.quantity - q)], gain, 0.0)
  {
    ReplayBuySell(b, s, how);
    SellAgainstOneLot(OpenLot(b), 0.0, 0.0, s, how);
  }

  /** Replaying a buy and then a sell is selling against the buy's lot. */
  lemma ReplayBuySell(b: TransactionData, s: TransactionData, how: Method)
    requires b.kind == Buy && s.kind == Sell
    ensures Process(EmptyLedger, [b, s], how) == ApplySell(Ledger([OpenLot(b)], 0.0, 0.0), s, how)
  {
    ProcessTwo(EmptyLedger, b, s, how);
    assert Step(EmptyLedger, b, how) == Ledger([OpenLot(b)], 0.0, 0.0);
  }

  /** A round trip held 400 days: buy 1 BTC at 45000 with fee 25, sell it
      at 52000 with fee 30, under the US rules. */
  lemma WorkedExample(how: Method)
    ensures var b := TransactionData(0, "BTC", Buy, 1.0, 45000.0, 25.0, "Binance");
      var s := TransactionData(400 * DayMs, "BTC", Sell, 1.0, 52000.0, 30.0, "Binance");
      var r := RealEarnings.WithRealEarnings(CalculateTax([b, s], US, how), US);
      && r.shortTermGains == 0.0 && r.longTermGains == 6945.0
      && r.totalTax == 1041.75
      && r.realEarnings == 5694.9
      && r.inflationAdjustedReturn == 82.0
  {
    var b := TransactionData(0, "BTC", Buy, 1.0, 45000.0, 25.0, "Binance");
    var s := TransactionData(400 * DayMs, "BTC", Sell, 1.0, 52000.0, 30.0, "Binance");
    var c := CalculateTax([b, s], US, how);
    assert c.shortTermGains == 0.0 && c.longTermGains == 6945.0 by {
      SingleRoundTrip(b, s, US, how);
      assert IsLongTerm(s.timestamp, b.timestamp);
    }
    assert c.totalTax == 1041.75 by {
      assert c.totalTax == TaxOn(US, c.shortTermGains, c.longTermGains);
    }
    var a := RealEarnings.CalculateRealEarnings(c, US);
    assert TotalGains(c) == 6945.0;
    assert a.realEarnings == 5694.9;
    assert a.inflationAdjustedReturn == 82.0 by {
      assert a.inflationAdjustedReturn * 6945.0 == 5694.9 * 100.0;
    }
  }

  /** A lot of 2 bought with fee 10, then sold one unit at a time at its own
      price. */
  const FeeBuy := TransactionData(0, "ETH", Buy, 2.0, 10.0, 10.0, "X")
  const FeeSell1 := TransactionData(DayMs, "ETH", Sell, 1.0, 10.0, 0.0, "X")
  const FeeSell2 := TransactionData(2 * DayMs, "ETH", Sell, 1.0, 10.0, 0.0, "X")

  /** The first sell takes half the lot and books a loss of half the fee. */
  lemma FeeFirstSell(how: Method)
    ensures Step(Ledger([OpenLot(FeeBuy)], 0.0, 0.0), FeeSell1, how) ==
      Ledger([OpenLot(FeeBuy).(quantity := 1.0)], -5.0, 0.0)
  {
    var p := OpenLot(FeeBuy);
    var l1 := Ledger([p], 0.0, 0.0);
    assert SliceGain(Slice(p, 1.0), FeeSell1) == -5.0 by {
      assert p.fee * 1.0 / p.quantity == 5.0;
      assert FeeSell1.fee * 1.0 / FeeSell1.quantity == 0.0;
    }
    assert Min(FeeSell1.quantity, p.quantity) == 1.0;
    assert !IsLongTerm(FeeSell1.timestamp, p.timestamp);
    assert Step(l1, FeeSell1, how) == ApplySell(l1, FeeSell1, how);
    SellAgainstOneLot(p, 0.0, 0.0, FeeSell1, how);
  }

  /** The second sell takes the rest and books a loss of the whole fee. */
  lemma FeeSecondSell(how: Method)
    ensures Step(Ledger([OpenLot(FeeBuy).(quantity := 1.0)], -5.0, 0.0), FeeSell2, how).shortTermGains == -15.0
  {
    var p1 := OpenLot(FeeBuy).(quantity := 1.0);
    assert SliceGain(Slice(p1, 1.0), FeeSell2) == -10.0 by {
      assert p1.fee * 1.0 / p1.quantity == 10.0;
      assert FeeSell2.fee * 1.0 / FeeSell2.quantity == 0.0;
    }
    assert Min(FeeSell2.quantity, p1.quantity) == 1.0;
    assert !IsLongTerm(FeeSell2.timestamp, p1.timestamp);
    SellAgainstOneLot(p1, -5.0, 0.0, FeeSell2, how);
  }

  /** The buy fee's share is taken over what remains of the lot, not over its
      original quantity: selling the lot one unit at a time at its own price
      books losses of 5 and then 10, so 15 of fees for a fee of 10. */
  lemma RemainingQuantityFeeShare(how: Method)
    ensures CalculateTax([FeeBuy, FeeSell1, FeeSell2], US, how).shortTermGains == -15.0
  {
    var txs := [FeeBuy, FeeSell1, FeeSell2];
    assert Process(EmptyLedger, txs, how).shortTermGains == -15.0 by {
      FeeReplay(how);
      FeeSecondSell(how);
    }
    assert forall j, k :: 0 <= j < k < |txs| ==> txs[j].timestamp <= txs[k].timestamp by {
      assert txs[0].timestamp <= txs[1].timestamp <= txs[2].timestamp;
    }
    CalculateTaxOfSorted(txs, US, how);
  }

  /** The replay of the fee example up to its last sell. */
  lemma FeeReplay(how: Method)
    ensures Process(EmptyLedger, [FeeBuy, FeeSell1, FeeSell2], how) ==
      Step(Ledger([OpenLot(FeeBuy).(quantity := 1.0)], -5.0, 0.0), FeeSell2, how)
  {
    var txs := [FeeBuy, FeeSell1, FeeSell2];
    var l1 := Ledger([OpenLot(FeeBuy)], 0.0, 0.0);
    assert txs[1..] == [FeeSell1, FeeSell2];
    assert Step(EmptyLedger, FeeBuy, how) == l1;
    assert Process(EmptyLedger, txs, how) == Process(l1, [FeeSell1, FeeSell2], how);
    ProcessTwo(l1, FeeSell1, FeeSell2, how);
    FeeFirstSell(how);
  }

  /** Selling more than is held matches only what is held and drops the rest
      without error; the sell fee is still spread over the whole sell
      quantity, so only a third of it is charged here. */
  lemma ExcessSellIsDropped(how: Method)
    ensures var b := TransactionData(0, "SOL", Buy, 1.0, 100.0, 0.0, "X");
      var s := TransactionData(DayMs, "SOL", Sell, 3.0, 200.0, 30.0, "X");
      CalculateTax([b, s], US, how).shortTermGains == 90.0
  {
    var b := TransactionData(0, "SOL", Buy, 1.0, 100.0, 0.0, "X");
    var s := TransactionData(DayMs, "SOL", Sell, 3.0, 200.0, 30.0, "X");
    var p := OpenLot(b);
    assert SliceGain(Slice(p, 1.0), s) == 90.0 by {
      assert p.fee * 1.0 / p.quantity == 0.0;
      assert s.fee * 1.0 / s.quantity == 10.0;
    }
    assert Min(s.quantity, p.quantity) == 1.0;
    assert !IsLongTerm(s.timestamp, p.timestamp);
    assert Process(EmptyLedger, [b, s], how).shortTermGains == SliceGain(Slice(p, 1.0), s) by {
      BuyThenSell(b, s, how);
    }
    CalculateTaxOfSorted([b, s], US, how);
  }

  /** When the allowance gate passes, the tax is the bucket rates applied to
      the positive parts, plus, for India, 1% of the net gain, all raised by
      the 4% cess. */
  lemma TaxWhenGatePasses(country: Country, st: real, lt: real)
    requires st + lt > Rules(country).allowance
    ensures var rules := Rules(country);
      var base := Max(st, 0.0) * rules.shortTermRate + Max(lt, 0.0) * rules.longTermRate;
      TaxOn(country, st, lt) == if country == IN then (base + (st + lt) * 0.01) * 1.04 else base
  {
  }

  /** The allowance gates on the net total: a positive bucket is not taxed
      when the other bucket's loss brings the total within the allowance. */
  lemma AllowanceGatesNetTotal()
    ensures TaxOn(UK, 10000.0, -5000.0) == 0.0
    ensures TaxOn(US, 1000.0, -1000.0) == 0.0
  {
  }

  /** Three open lots of one asset: the oldest is the cheapest and the middle
      one the dearest. */
  const ThreeLots := [
    Position("BTC", 1.0, 100.0, 0, 0.0),
    Position("BTC", 1.0, 300.0, DayMs, 0.0),
    Position("BTC", 1.0, 200.0, 2 * DayMs, 0.0)]

  lemma ThreeLotsCandidates()
    ensures OpenLotsFrom(ThreeLots, "BTC", 0) == [0, 1, 2]
  {
    assert OpenLotsFrom(ThreeLots, "BTC", 3) == [];
    assert OpenLotsFrom(ThreeLots, "BTC", 2) == [2];
    assert OpenLotsFrom(ThreeLots, "BTC", 1) == [1, 2];
  }

  lemma FifoKeys()
    ensures LotKeyOf(ThreeLots, FIFO)(0) == 0.0
    ensures LotKeyOf(ThreeLots, FIFO)(1) == DayMs as real
    ensures LotKeyOf(ThreeLots, FIFO)(2) == (2 * DayMs) as real
  {
  }

  lemma FifoSort()
    ensures StableSort.Sort([0, 1, 2], LotKeyOf(ThreeLots, FIFO)) == [0, 1, 2]
  {
    var key := LotKeyOf(ThreeLots, FIFO);
    FifoKeys();
    assert [0, 1, 2][1..] == [1, 2] && [1, 2][1..] == [2];
    assert StableSort.Sort([2], key) == [2];
    assert StableSort.Sort([1, 2], key) == StableSort.Insert(1, [2], key) == [1, 2];
    assert StableSort.Insert(0, [1, 2], key) == [0, 1, 2];
  }

  /** First in, first out draws on the oldest lot first. */
  lemma FifoOrder()
    ensures MatchOrder(ThreeLots, "BTC", FIFO) == [0, 1, 2]
  {
    ThreeLotsCandidates();
    FifoSort();
  }

  lemma LifoKeys()
    ensures LotKeyOf(ThreeLots, LIFO)(0) == 0.0
    ensures LotKeyOf(ThreeLots, LIFO)(1) == -(DayMs as real)
    ensures LotKeyOf(ThreeLots, LIFO)(2) == -(2 * DayMs) as real
  {
  }

  lemma LifoSort()
    ensures StableSort.Sort([0, 1, 2], LotKeyOf(ThreeLots, LIFO)) == [2, 1, 0]
  {
    var key := LotKeyOf(ThreeLots, LIFO);
    LifoKeys();
    assert [0, 1, 2][1..] == [1, 2] && [1, 2][1..] == [2] && [2, 1][1..] == [1];
    assert StableSort.Sort([2], key) == [2];
    assert StableSort.Insert(1, [2], key) == [2, 1] by {
      assert StableSort.Insert(1, [2], key) == [2] + StableSort.Insert(1, [], key);
    }
    assert StableSort.Sort([1, 2], key) == [2, 1];
    assert StableSort.Insert(0, [1], key) == [1, 0] by {
      assert StableSort.Insert(0, [1], key) == [1] + StableSort.Insert(0, [], key);
    }
    assert StableSort.Insert(0, [2, 1], key) == [2] + StableSort.Insert(0, [1], key);
  }

  /** Last in, first out draws on the newest lot first. */
  lemma LifoOrder()
    ensures MatchOrder(ThreeLots, "BTC", LIFO) == [2, 1, 0]
  {
    ThreeLotsCandidates();
    LifoSort();
  }

  lemma HifoKeys()
    ensures LotKeyOf(ThreeLots, HIFO)(0) == -100.0
    ensures LotKeyOf(ThreeLots, HIFO)(1) == -300.0
    ensures LotKeyOf(ThreeLots, HIFO)(2) == -200.0
  {
  }

  lemma HifoSort()
    ensures StableSort.Sort([0, 1, 2], LotKeyOf(ThreeLots, HIFO)) == [1, 2, 0]
  {
    var key := LotKeyOf(ThreeLots, HIFO);
    HifoKeys();
    assert [0, 1, 2][1..] == [1, 2] && [1, 2][1..] == [2];
    assert StableSort.Sort([2], key) == [2];
    assert StableSort.Insert(1, [2], key) == [1, 2];
    assert StableSort.Sort([1, 2], key) == [1, 2];
    assert StableSort.Insert(0, [2], key) == [2, 0] by {
      assert StableSort.Insert(0, [2], key) == [2] + StableSort.Insert(0, [], key);
    }
    assert StableSort.Insert(0, [1, 2], key) == [1] + StableSort.Insert(0, [2], key);
  }

  /** Highest in, first out draws on the dearest lot first. */
  lemma HifoOrder()
    ensures MatchOrder(ThreeLots, "BTC", HIFO) == [1, 2, 0]
  {
    ThreeLotsCandidates();
    HifoSort();
  }
}
