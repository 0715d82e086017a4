/** The lot-matching tax engine: trades are replayed in time order, buys open
    lots, sells consume open lots of the same asset in the order the chosen
    method prescribes, each consumed slice yields a short- or long-term gain,
    and the jurisdiction's rule record turns the two totals into a tax. */
module TaxCalculator {
  import opened Results
  import opened Transactions
  import StableSort

  const DayMs: int := 24 * 60 * 60 * 1000

  /** The holding period a slice must strictly exceed to count as long-term. */
  const YearMs: int := 365 * DayMs

  /** India's health-and-education cess, applied to the running tax. */
  const IndiaCess: real := 0.04

  /** The per-jurisdiction rule table. */
  function Rules(country: Country): CountryTaxRules
  {
    match country
    case IN => CountryTaxRules(0.30, 0.30, 0.0, Some(0.01), "India", "\U{1F1EE}\U{1F1F3}")
    case US => CountryTaxRules(0.22, 0.15, 0.0, None, "United States", "\U{1F1FA}\U{1F1F8}")
    case UK => CountryTaxRules(0.20, 0.20, 6000.0, None, "United Kingdom", "\U{1F1EC}\U{1F1E7}")
  }

  /** An open lot: what is left of one buy. Only `quantity` ever changes. */
  datatype Position = Position(asset: string, quantity: real, price: real, timestamp: int, fee: real)

  /** The engine's running state: every lot ever opened, in the order the
      buys were processed, and the two gain totals. */
  datatype Ledger = Ledger(lots: seq<Position>, shortTermGains: real, longTermGains: real)

  const EmptyLedger: Ledger := Ledger([], 0.0, 0.0)

  function Min(a: real, b: real): real
  {
    if a <= b then a else b
  }

  function Max(a: real, b: real): real
  {
    if a >= b then a else b
  }

  /** The lot a buy opens. */
  function OpenLot(t: TransactionData): Position
  {
    Position(t.asset, t.quantity, t.price, t.timestamp, t.fee)
  }

  /** Same lot, possibly with a different remaining quantity. */
  predicate SameLot(p: Position, q: Position)
  {
    p.asset == q.asset && p.price == q.price && p.timestamp == q.timestamp && p.fee == q.fee
  }

  /** Strictly more than 365 days between acquisition and sale. */
  predicate IsLongTerm(sellTime: int, lotTime: int)
  {
    sellTime - lotTime > YearMs
  }

  /** A lot a sell of `asset` may draw on. */
  predicate IsOpenLotOf(p: Position, asset: string)
  {
    p.asset == asset && p.quantity > 0.0
  }

  /** The ascending sort key that realises each method's comparator. */
  function LotKey(how: Method, p: Position): real
  {
    match how
    case FIFO => p.timestamp as real
    case LIFO => -(p.timestamp as real)
    case HIFO => -p.price
  }

  function LotKeyOf(lots: seq<Position>, how: Method): int -> real
  {
    i => if 0 <= i < |lots| then LotKey(how, lots[i]) else 0.0
  }

  /** `a` may be consumed before `b` under `how`. */
  predicate Precedes(how: Method, a: Position, b: Position)
  {
    match how
    case FIFO => a.timestamp <= b.timestamp
    case LIFO => a.timestamp >= b.timestamp
    case HIFO => a.price >= b.price
  }

  /** `how`'s comparator cannot tell `a` and `b` apart. */
  predicate Tied(how: Method, a: Position, b: Position)
  {
    match how
    case FIFO | LIFO => a.timestamp == b.timestamp
    case HIFO => a.price == b.price
  }

  /** Indices from `i` on of the lots a sell of `asset` may draw on, ascending. */
  function OpenLotsFrom(lots: seq<Position>, asset: string, i: int): (c: seq<int>)
    requires 0 <= i <= |lots|
    ensures StableSort.Increasing(c)
    ensures forall k :: 0 <= k < |c| ==> i <= c[k] < |lots| && IsOpenLotOf(lots[c[k]], asset)
    ensures forall j :: i <= j < |lots| && IsOpenLotOf(lots[j], asset) ==> j in c
    decreases |lots| - i
  {
    if i == |lots| then []
    else
      var rest := OpenLotsFrom(lots, asset, i + 1);
      if IsOpenLotOf(lots[i], asset) then
        ConsIncreasing(i, rest);
        [i] + rest
      else rest
  }

  /** A smaller index in front keeps an ascending sequence ascending. */
  lemma ConsIncreasing(h: int, rest: seq<int>)
    requires StableSort.Increasing(rest)
    requires forall k :: 0 <= k < |rest| ==> h < rest[k]
    ensures StableSort.Increasing([h] + rest)
  {
    var s := [h] + rest;
    forall j, k | 0 <= j < k < |s|
      ensures s[j] < s[k]
    {
      assert s[k] == rest[k - 1];
    }
  }

  /** The lots a sell of `asset` consumes, in consumption order: every open lot
      of the asset exactly once, ordered by the method, ties in the order the
      lots were opened. */
  function MatchOrder(lots: seq<Position>, asset: string, how: Method): (order: seq<int>)
    ensures forall k :: 0 <= k < |order| ==> 0 <= order[k] < |lots| && IsOpenLotOf(lots[order[k]], asset)
    ensures forall j :: 0 <= j < |lots| && IsOpenLotOf(lots[j], asset) ==> j in order
    ensures forall j, k :: 0 <= j < k < |order| ==> order[j] != order[k]
    ensures forall j, k :: 0 <= j < k < |order| ==> Precedes(how, lots[order[j]], lots[order[k]])
    ensures forall j, k :: 0 <= j < k < |order| && Tied(how, lots[order[j]], lots[order[k]]) ==> order[j] < order[k]
  {
    var candidates := OpenLotsFrom(lots, asset, 0);
    var key := LotKeyOf(lots, how);
    var order := StableSort.Sort(candidates, key);
    StableSort.SortSorted(candidates, key);
    StableSort.SortTiesInOrder(candidates, key);
    MatchOrderProperties(lots, asset, how, candidates, order);
    order
  }

  /** A key-sorted, stably ordered permutation of the open lots' indices is a
      valid consumption order for `how`. */
  lemma MatchOrderProperties(lots: seq<Position>, asset: string, how: Method, candidates: seq<int>, order: seq<int>)
    requires forall k :: 0 <= k < |candidates| ==> 0 <= candidates[k] < |lots| && IsOpenLotOf(lots[candidates[k]], asset)
    requires forall j :: 0 <= j < |lots| && IsOpenLotOf(lots[j], asset) ==> j in candidates
    requires multiset(order) == multiset(candidates)
    requires StableSort.SortedBy(order, LotKeyOf(lots, how))
    requires StableSort.TiesInOrder(order, LotKeyOf(lots, how))
    ensures forall k :: 0 <= k < |order| ==> 0 <= order[k] < |lots| && IsOpenLotOf(lots[order[k]], asset)
    ensures forall j :: 0 <= j < |lots| && IsOpenLotOf(lots[j], asset) ==> j in order
    ensures forall j, k :: 0 <= j < k < |order| ==> order[j] != order[k]
    ensures forall j, k :: 0 <= j < k < |order| ==> Precedes(how, lots[order[j]], lots[order[k]])
    ensures forall j, k :: 0 <= j < k < |order| && Tied(how, lots[order[j]], lots[order[k]]) ==> order[j] < order[k]
  {
    StableSort.TiesInOrderDistinct(order, LotKeyOf(lots, how));
    StableSort.PermutationMembers(order, candidates);
    assert forall j :: j in candidates ==> j in multiset(order);
    MatchOrderRespectsMethod(lots, how, order);
  }

  /** Translates key order back into each method's comparator. */
  lemma MatchOrderRespectsMethod(lots: seq<Position>, how: Method, order: seq<int>)
    requires forall k :: 0 <= k < |order| ==> 0 <= order[k] < |lots|
    requires StableSort.SortedBy(order, LotKeyOf(lots, how))
    requires StableSort.TiesInOrder(order, LotKeyOf(lots, how))
    ensures forall j, k :: 0 <= j < k < |order| ==> Precedes(how, lots[order[j]], lots[order[k]])
    ensures forall j, k :: 0 <= j < k < |order| && Tied(how, lots[order[j]], lots[order[k]]) ==> order[j] < order[k]
  {
    var key := LotKeyOf(lots, how);
    forall j, k | 0 <= j < k < |order|
      ensures Precedes(how, lots[order[j]], lots[order[k]])
      ensures Tied(how, lots[order[j]], lots[order[k]]) ==> order[j] < order[k]
    {
      assert key(order[j]) <= key(order[k]);
      assert key(order[j]) == LotKey(how, lots[order[j]]);
      assert key(order[k]) == LotKey(how, lots[order[k]]);
    }
  }

  /** One consumed slice: the lot as it stood just before, and the quantity
      taken from it. */
  datatype Slice = Slice(lot: Position, quantity: real)

  /** The lots after matching a sell, the slices taken in consumption order,
      and the sell quantity left unmatched. */
  datatype Match = Match(lots: seq<Position>, slices: seq<Slice>, unmatched: real)

  /** Total quantity of a run of slices. */
  function SlicedQuantity(slices: seq<Slice>): real
  {
    if |slices| == 0 then 0.0 else slices[0].quantity + SlicedQuantity(slices[1..])
  }

  /** `order` lists distinct indices of lots that still hold something. */
  predicate ValidOrder(lots: seq<Position>, order: seq<int>)
  {
    && (forall k :: 0 <= k < |order| ==> 0 <= order[k] < |lots| && lots[order[k]].quantity > 0.0)
    && (forall j, k :: 0 <= j < k < |order| ==> order[j] != order[k])
  }

  /** The lots after `q` is taken from the lot `order[0]`. */
  function TakeFirst(lots: seq<Position>, order: seq<int>, q: real): seq<Position>
    requires |order| > 0 && 0 <= order[0] < |lots|
  {
    lots[order[0] := lots[order[0]].(quantity := lots[order[0]].quantity - q)]
  }

  /** After the first listed lot is drawn on, the rest of the order is still
      valid, and lists lots that draw did not touch. */
  lemma TailOrder(lots: seq<Position>, order: seq<int>, q: real)
    requires ValidOrder(lots, order) && |order| > 0
    ensures ValidOrder(TakeFirst(lots, order, q), order[1..])
    ensures forall k :: 0 <= k < |order| - 1 ==> TakeFirst(lots, order, q)[order[1..][k]] == lots[order[1..][k]]
  {
    assert forall k :: 0 <= k < |order| - 1 ==> order[1..][k] == order[k + 1] && order[k + 1] != order[0];
  }

  /** Consumes the lots listed in `order` until `remaining` is no longer
      positive or the list runs out; each step takes the smaller of what is
      still wanted and what the lot still holds. */
  function MatchLots(lots: seq<Position>, order: seq<int>, remaining: real): (r: Match)
    requires ValidOrder(lots, order)
    ensures |r.lots| == |lots|
    decreases |order|
  {
    if |order| == 0 || remaining <= 0.0 then Match(lots, [], remaining)
    else
      var q := Min(remaining, lots[order[0]].quantity);
      TailOrder(lots, order, q);
      var rest := MatchLots(TakeFirst(lots, order, q), order[1..], remaining - q);
      Match(rest.lots, [Slice(lots[order[0]], q)] + rest.slices, rest.unmatched)
  }

  /** Matching leaves the lots not listed in `order` as they were. */
  lemma {:induction false} MatchLotsUntouched(lots: seq<Position>, order: seq<int>, remaining: real)
    requires ValidOrder(lots, order)
    ensures var r := MatchLots(lots, order, remaining);
      forall i :: 0 <= i < |lots| && i !in order ==> r.lots[i] == lots[i]
    decreases |order|
  {
    if |order| > 0 && remaining > 0.0 {
      var q := Min(remaining, lots[order[0]].quantity);
      var next := TakeFirst(lots, order, q);
      assert MatchLots(lots, order, remaining).lots == MatchLots(next, order[1..], remaining - q).lots;
      assert forall i :: i !in order ==> i !in order[1..] && i != order[0];
      TailOrder(lots, order, q);
      MatchLotsUntouched(next, order[1..], remaining - q);
    }
  }

  /** Matching only lowers the quantities of the lots, never below zero, and
      changes nothing else about any lot. */
  lemma {:induction false} MatchLotsShrinks(lots: seq<Position>, order: seq<int>, remaining: real)
    requires ValidOrder(lots, order)
    ensures var r := MatchLots(lots, order, remaining);
      forall i :: 0 <= i < |lots| ==>
        SameLot(r.lots[i], lots[i]) &&
        (r.lots[i].quantity == lots[i].quantity || 0.0 <= r.lots[i].quantity < lots[i].quantity)
    decreases |order|
  {
    if |order| > 0 && remaining > 0.0 {
      var q := Min(remaining, lots[order[0]].quantity);
      var next := TakeFirst(lots, order, q);
      var r := MatchLots(next, order[1..], remaining - q);
      assert MatchLots(lots, order, remaining).lots == r.lots;
      TailOrder(lots, order, q);
      assert r.lots[order[0]] == next[order[0]] by {
        MatchLotsUntouched(next, order[1..], remaining - q);
      }
      MatchLotsShrinks(next, order[1..], remaining - q);
    }
  }

  /** Matching a positive quantity leaves between nothing and all of it
      unmatched, and the slices taken are positive, no larger than their lots,
      and together make up exactly the matched quantity; a quantity that is not
      positive matches nothing. */
  lemma {:induction false} MatchLotsAmounts(lots: seq<Position>, order: seq<int>, remaining: real)
    requires ValidOrder(lots, order)
    ensures var r := MatchLots(lots, order, remaining);
      && (remaining <= 0.0 ==> r == Match(lots, [], remaining))
      && (remaining > 0.0 ==> 0.0 <= r.unmatched <= remaining)
      && (forall k :: 0 <= k < |r.slices| ==> 0.0 < r.slices[k].quantity <= r.slices[k].lot.quantity)
      && SlicedQuantity(r.slices) == if remaining > 0.0 then remaining - r.unmatched else 0.0
    decreases |order|
  {
    if |order| > 0 && remaining > 0.0 {
      var q := Min(remaining, lots[order[0]].quantity);
      var next := TakeFirst(lots, order, q);
      TailOrder(lots, order, q);
      MatchLotsAmounts(next, order[1..], remaining - q);
      var r := MatchLots(next, order[1..], remaining - q);
      var slices := [Slice(lots[order[0]], q)] + r.slices;
      assert MatchLots(lots, order, remaining) == Match(r.lots, slices, r.unmatched);
      assert slices[1..] == r.slices;
      assert forall k :: 0 < k < |slices| ==> slices[k] == r.slices[k - 1];
    }
  }

  /** Slice `k` is taken from the `k`-th listed lot, as it stood before the
      match, and lowers that lot by exactly the slice's quantity. */
  lemma {:induction false} MatchLotsSlicesFollowOrder(lots: seq<Position>, order: seq<int>, remaining: real)
    requires ValidOrder(lots, order)
    ensures var r := MatchLots(lots, order, remaining);
      && |r.slices| <= |order|
      && forall k :: 0 <= k < |r.slices| ==>
           r.slices[k].lot == lots[order[k]] && r.lots[order[k]].quantity == lots[order[k]].quantity - r.slices[k].quantity
    decreases |order|
  {
    if |order| > 0 && remaining > 0.0 {
      var i := order[0];
      var q := Min(remaining, lots[i].quantity);
      var next := TakeFirst(lots, order, q);
      var rest := MatchLots(next, order[1..], remaining - q);
      var r := MatchLots(lots, order, remaining);
      assert r == Match(rest.lots, [Slice(lots[i], q)] + rest.slices, rest.unmatched);
      TailOrder(lots, order, q);
      assert rest.lots[i] == next[i] by {
        assert i !in order[1..];
        MatchLotsUntouched(next, order[1..], remaining - q);
      }
      MatchLotsSlicesFollowOrder(next, order[1..], remaining - q);
      forall k | 0 < k < |r.slices|
        ensures r.slices[k].lot == lots[order[k]] && r.lots[order[k]].quantity == lots[order[k]].quantity - r.slices[k].quantity
      {
        assert r.slices[k] == rest.slices[k - 1] && order[k] == order[1..][k - 1];
      }
    }
  }

  /** The lots a match touches are a prefix of `order`: those past the last
      slice keep what they held. */
  lemma {:induction false} MatchLotsTouchesPrefix(lots: seq<Position>, order: seq<int>, remaining: real)
    requires ValidOrder(lots, order)
    ensures var r := MatchLots(lots, order, remaining);
      forall k :: |r.slices| <= k < |order| ==> r.lots[order[k]] == lots[order[k]]
    decreases |order|
  {
    if |order| > 0 && remaining > 0.0 {
      var i := order[0];
      var q := Min(remaining, lots[i].quantity);
      var next := TakeFirst(lots, order, q);
      var rest := MatchLots(next, order[1..], remaining - q);
      var r := MatchLots(lots, order, remaining);
      assert r.lots == rest.lots && |r.slices| == 1 + |rest.slices|;
      assert forall k :: |rest.slices| <= k < |order| - 1 ==> rest.lots[order[1..][k]] == next[order[1..][k]] by {
        TailOrder(lots, order, q);
        MatchLotsTouchesPrefix(next, order[1..], remaining - q);
      }
      assert forall k :: 0 <= k < |order| - 1 ==> next[order[1..][k]] == lots[order[1..][k]] by {
        TailOrder(lots, order, q);
      }
      forall k | |r.slices| <= k < |order|
        ensures r.lots[order[k]] == lots[order[k]]
      {
        assert order[k] == order[1..][k - 1];
      }
    }
  }

  /** Every lot a match touches, except the last, is emptied. */
  lemma {:induction false} MatchLotsEmptiesAllButLast(lots: seq<Position>, order: seq<int>, remaining: real)
    requires ValidOrder(lots, order)
    ensures var r := MatchLots(lots, order, remaining);
      forall k :: 0 <= k < |order| && k + 1 < |r.slices| ==> r.lots[order[k]].quantity == 0.0
    decreases |order|
  {
    if |order| > 0 && remaining > 0.0 {
      var i := order[0];
      var q := Min(remaining, lots[i].quantity);
      var next := TakeFirst(lots, order, q);
      var rest := MatchLots(next, order[1..], remaining - q);
      var r := MatchLots(lots, order, remaining);
      assert r.lots == rest.lots && |r.slices| == 1 + |rest.slices|;
      assert forall k :: 0 <= k < |order| - 1 && k + 1 < |rest.slices| ==> rest.lots[order[1..][k]].quantity == 0.0 by {
        TailOrder(lots, order, q);
        MatchLotsEmptiesAllButLast(next, order[1..], remaining - q);
      }
      if |rest.slices| > 0 {
        HeadEmptied(lots, order, remaining);
      }
      forall k | 0 < k < |order| && k + 1 < |r.slices|
        ensures r.lots[order[k]].quantity == 0.0
      {
        assert order[k] == order[1..][k - 1];
      }
    }
  }

  /** When the match goes on past the first listed lot, that lot is emptied. */
  lemma HeadEmptied(lots: seq<Position>, order: seq<int>, remaining: real)
    requires ValidOrder(lots, order) && |order| > 0 && remaining > 0.0
    requires |MatchLots(lots, order, remaining).slices| > 1
    ensures MatchLots(lots, order, remaining).lots[order[0]].quantity == 0.0
  {
    var i := order[0];
    var q := Min(remaining, lots[i].quantity);
    var next := TakeFirst(lots, order, q);
    TailOrder(lots, order, q);
    var rest := MatchLots(next, order[1..], remaining - q);
    assert MatchLots(lots, order, remaining) == Match(rest.lots, [Slice(lots[i], q)] + rest.slices, rest.unmatched);
    assert remaining - q > 0.0 by {
      MatchLotsAmounts(next, order[1..], remaining - q);
    }
    assert rest.lots[i] == next[i] by {
      assert i !in order[1..];
      MatchLotsUntouched(next, order[1..], remaining - q);
    }
  }

  /** A lot later in `order` is drawn on only once every earlier one has
      been emptied. */
  lemma MatchLotsInOrder(lots: seq<Position>, order: seq<int>, remaining: real)
    requires ValidOrder(lots, order)
    ensures var r := MatchLots(lots, order, remaining);
      forall j, k :: 0 <= j < k < |order| && r.lots[order[k]] != lots[order[k]] ==> r.lots[order[j]].quantity == 0.0
  {
    MatchLotsSlicesFollowOrder(lots, order, remaining);
    MatchLotsTouchesPrefix(lots, order, remaining);
    MatchLotsEmptiesAllButLast(lots, order, remaining);
  }

  /** The gain of a slice taken within `sell`: proceeds net of the sell fee's
      share (over the sell's whole quantity) minus the cost basis plus the buy
      fee's share (over the lot's quantity remaining when the slice is taken). */
  function SliceGain(s: Slice, sell: TransactionData): real
    requires s.lot.quantity != 0.0 && sell.quantity != 0.0
  {
    var costBasis := s.lot.price * s.quantity + s.lot.fee * s.quantity / s.lot.quantity;
    var sellAmount := sell.price * s.quantity - sell.fee * s.quantity / sell.quantity;
    sellAmount - costBasis
  }

  /** The total gain of the slices whose holding period is long-term exactly
      when `long` is. */
  function GainSum(slices: seq<Slice>, sell: TransactionData, long: bool): real
    requires forall k :: 0 <= k < |slices| ==> slices[k].lot.quantity > 0.0
    requires |slices| > 0 ==> sell.quantity > 0.0
  {
    if |slices| == 0 then 0.0
    else
      var here := if IsLongTerm(sell.timestamp, slices[0].lot.timestamp) == long then SliceGain(slices[0], sell) else 0.0;
      here + GainSum(slices[1..], sell, long)
  }

  /** Books each slice's gain in the bucket its holding period selects. */
  function Book(l: Ledger, slices: seq<Slice>, sell: TransactionData): (r: Ledger)
    requires forall k :: 0 <= k < |slices| ==> slices[k].lot.quantity > 0.0
    requires |slices| > 0 ==> sell.quantity > 0.0
    ensures r.lots == l.lots
    ensures r.longTermGains == l.longTermGains + GainSum(slices, sell, true)
    ensures r.shortTermGains == l.shortTermGains + GainSum(slices, sell, false)
    ensures (forall k :: 0 <= k < |slices| ==> !IsLongTerm(sell.timestamp, slices[k].lot.timestamp)) ==>
      r.longTermGains == l.longTermGains
    ensures (forall k :: 0 <= k < |slices| ==> IsLongTerm(sell.timestamp, slices[k].lot.timestamp)) ==>
      r.shortTermGains == l.shortTermGains
    decreases |slices|
  {
    if |slices| == 0 then l
    else
      var s := slices[0];
      var gain := SliceGain(s, sell);
      var next :=
        if IsLongTerm(sell.timestamp, s.lot.timestamp) then l.(longTermGains := l.longTermGains + gain)
        else l.(shortTermGains := l.shortTermGains + gain);
      Book(next, slices[1..], sell)
  }

  /** The slices a sell of `t` takes from `lots`, in consumption order. */
  function SellSlices(lots: seq<Position>, t: TransactionData, how: Method): (slices: seq<Slice>)
    ensures forall k :: 0 <= k < |slices| ==> slices[k].lot.quantity > 0.0
    ensures |slices| > 0 ==> t.quantity > 0.0
  {
    SellMatch(lots, t.asset, how, t.quantity);
    MatchLots(lots, MatchOrder(lots, t.asset, how), t.quantity).slices
  }

  /** A sell consumes the open lots of its asset in method order, drops any
      excess quantity, and books the gains of the slices it took. */
  function ApplySell(l: Ledger, t: TransactionData, how: Method): (r: Ledger)
    ensures |r.lots| == |l.lots|
    ensures forall i :: 0 <= i < |l.lots| && l.lots[i].asset != t.asset ==> r.lots[i] == l.lots[i]
    ensures forall i :: 0 <= i < |l.lots| ==> SameLot(r.lots[i], l.lots[i])
    ensures forall i :: 0 <= i < |l.lots| ==>
      r.lots[i].quantity == l.lots[i].quantity || 0.0 <= r.lots[i].quantity < l.lots[i].quantity
    ensures OpenQuantity(r.lots, t.asset) == OpenQuantity(l.lots, t.asset) - Min(Max(t.quantity, 0.0), OpenQuantity(l.lots, t.asset))
    ensures r.longTermGains == l.longTermGains + GainSum(SellSlices(l.lots, t, how), t, true)
    ensures r.shortTermGains == l.shortTermGains + GainSum(SellSlices(l.lots, t, how), t, false)
  {
    var m := MatchLots(l.lots, MatchOrder(l.lots, t.asset, how), t.quantity);
    SellMatch(l.lots, t.asset, how, t.quantity);
    Book(Ledger(m.lots, l.shortTermGains, l.longTermGains), m.slices, t)
  }

  /** A sell draws on the lots in its consumption order: slice `k` is taken
      from the `k`-th lot of the order and lowers it by the slice's quantity,
      and a lot is drawn on only once every lot before it has been emptied. */
  lemma ApplySellAlongOrder(l: Ledger, t: TransactionData, how: Method)
    ensures var r := ApplySell(l, t, how);
      var order := MatchOrder(l.lots, t.asset, how); var slices := SellSlices(l.lots, t, how);
      && |slices| <= |order|
      && (forall k :: 0 <= k < |slices| ==>
            slices[k].lot == l.lots[order[k]] && r.lots[order[k]].quantity == l.lots[order[k]].quantity - slices[k].quantity)
      && (forall j, k :: 0 <= j < k < |order| && r.lots[order[k]] != l.lots[order[k]] ==> r.lots[order[j]].quantity == 0.0)
  {
    SellAlongOrder(l.lots, t.asset, how, t.quantity);
    var m := MatchLots(l.lots, MatchOrder(l.lots, t.asset, how), t.quantity);
    assert ApplySell(l, t, how).lots == m.lots;
  }

  /** Matching a sell walks its consumption order: slice `k` comes from the
      `k`-th lot of the order, and a lot is drawn on only after every lot
      before it in the order has been emptied. */
  lemma SellAlongOrder(lots: seq<Position>, asset: string, how: Method, wanted: real)
    ensures ValidOrder(lots, MatchOrder(lots, asset, how))
    ensures var order := MatchOrder(lots, asset, how); var m := MatchLots(lots, order, wanted);
      && |m.slices| <= |order|
      && (forall k :: 0 <= k < |m.slices| ==>
            m.slices[k].lot == lots[order[k]] && m.lots[order[k]].quantity == lots[order[k]].quantity - m.slices[k].quantity)
      && (forall j, k :: 0 <= j < k < |order| && m.lots[order[k]] != lots[order[k]] ==> m.lots[order[j]].quantity == 0.0)
  {
    var order := MatchOrder(lots, asset, how);
    SellMatch(lots, asset, how, wanted);
    MatchLotsSlicesFollowOrder(lots, order, wanted);
    MatchLotsInOrder(lots, order, wanted);
  }

  /** What matching a sell of `wanted` units of `asset` does to the lots, and
      that its slices can be booked. */
  lemma SellMatch(lots: seq<Position>, asset: string, how: Method, wanted: real)
    ensures ValidOrder(lots, MatchOrder(lots, asset, how))
    ensures var m := MatchLots(lots, MatchOrder(lots, asset, how), wanted);
      && |m.lots| == |lots|
      && (forall i :: 0 <= i < |lots| && lots[i].asset != asset ==> m.lots[i] == lots[i])
      && (forall i :: 0 <= i < |lots| ==> SameLot(m.lots[i], lots[i]))
      && (forall i :: 0 <= i < |lots| ==>
            m.lots[i].quantity == lots[i].quantity || 0.0 <= m.lots[i].quantity < lots[i].quantity)
      && OpenQuantity(m.lots, asset) == OpenQuantity(lots, asset) - Min(Max(wanted, 0.0), OpenQuantity(lots, asset))
      && (forall k :: 0 <= k < |m.slices| ==> m.slices[k].lot.quantity > 0.0)
      && (|m.slices| > 0 ==> wanted > 0.0)
  {
    var order := MatchOrder(lots, asset, how);
    var m := MatchLots(lots, order, wanted);
    assert forall i :: 0 <= i < |lots| && lots[i].asset != asset ==> i !in order;
    MatchLotsUntouched(lots, order, wanted);
    MatchLotsShrinks(lots, order, wanted);
    MatchLotsAmounts(lots, order, wanted);
    SellDecreasesOpenQuantity(lots, order, asset, wanted, m);
  }

  /** One transaction of the time-ordered replay. */
  function Step(l: Ledger, t: TransactionData, how: Method): Ledger
  {
    match t.kind
    case Buy => l.(lots := l.lots + [OpenLot(t)])
    case Sell => ApplySell(l, t, how)
    case Transfer => l
  }

  /** Replays `txs` in the given order. */
  function Process(l: Ledger, txs: seq<TransactionData>, how: Method): Ledger
    decreases |txs|
  {
    if |txs| == 0 then l else Process(Step(l, txs[0], how), txs[1..], how)
  }

  /** The ascending sort key of the trades: their timestamps. */
  function TimeKey(txs: seq<TransactionData>): int -> real
  {
    i => if 0 <= i < |txs| then txs[i].timestamp as real else 0.0
  }

  /** The indices `0 .. n-1`, ascending. */
  function Indices(n: nat): (r: seq<int>)
    ensures |r| == n
    ensures forall i :: 0 <= i < n ==> r[i] == i
  {
    if n == 0 then [] else Indices(n - 1) + [n - 1]
  }

  /** The processing order of the trades: indices sorted by timestamp, ties
      in input order. */
  function TimeOrder(txs: seq<TransactionData>): (order: seq<int>)
    ensures |order| == |txs|
    ensures forall k :: 0 <= k < |order| ==> 0 <= order[k] < |txs|
    ensures forall i :: 0 <= i < |txs| ==> i in order
    ensures forall j, k :: 0 <= j < k < |order| ==> txs[order[j]].timestamp <= txs[order[k]].timestamp
    ensures forall j, k :: 0 <= j < k < |order| && txs[order[j]].timestamp == txs[order[k]].timestamp ==> order[j] < order[k]
  {
    var indices := Indices(|txs|);
    var order := StableSort.Sort(indices, TimeKey(txs));
    StableSort.SortSorted(indices, TimeKey(txs));
    StableSort.SortTiesInOrder(indices, TimeKey(txs));
    TimeOrderProperties(txs, order);
    order
  }

  /** A key-sorted, stably ordered permutation of the trade indices lists the
      trades by time, ties in input order. */
  lemma TimeOrderProperties(txs: seq<TransactionData>, order: seq<int>)
    requires multiset(order) == multiset(Indices(|txs|))
    requires StableSort.SortedBy(order, TimeKey(txs))
    requires StableSort.TiesInOrder(order, TimeKey(txs))
    ensures forall k :: 0 <= k < |order| ==> 0 <= order[k] < |txs|
    ensures forall i :: 0 <= i < |txs| ==> i in order
    ensures forall j, k :: 0 <= j < k < |order| ==> txs[order[j]].timestamp <= txs[order[k]].timestamp
    ensures forall j, k :: 0 <= j < k < |order| && txs[order[j]].timestamp == txs[order[k]].timestamp ==> order[j] < order[k]
  {
    var key := TimeKey(txs);
    IndexPermutation(order, |txs|);
    forall j, k | 0 <= j < k < |order|
      ensures txs[order[j]].timestamp <= txs[order[k]].timestamp
      ensures txs[order[j]].timestamp == txs[order[k]].timestamp ==> order[j] < order[k]
    {
      assert key(order[j]) <= key(order[k]);
      assert key(order[j]) == key(order[k]) ==> order[j] < order[k];
    }
  }

  /** A permutation of `0 .. n-1` holds exactly those indices. */
  lemma IndexPermutation(order: seq<int>, n: nat)
    requires multiset(order) == multiset(Indices(n))
    ensures forall k :: 0 <= k < |order| ==> 0 <= order[k] < n
    ensures forall i :: 0 <= i < n ==> i in order
  {
    var indices := Indices(n);
    StableSort.PermutationMembers(order, indices);
    forall k | 0 <= k < |order|
      ensures 0 <= order[k] < n
    {
      var m :| 0 <= m < |indices| && indices[m] == order[k];
    }
    forall i | 0 <= i < n
      ensures i in order
    {
      assert indices[i] == i;
      assert i in multiset(indices);
    }
  }

  /** The trades in processing order. */
  function SortByTime(txs: seq<TransactionData>): (r: seq<TransactionData>)
    ensures |r| == |txs|
    ensures forall k :: 0 <= k < |r| ==> r[k] == txs[TimeOrder(txs)[k]]
    ensures forall j, k :: 0 <= j < k < |r| ==> r[j].timestamp <= r[k].timestamp
  {
    var order := TimeOrder(txs);
    seq(|order|, k requires 0 <= k < |order| => txs[order[k]])
  }

  /** The tax owed on the two gain totals. The allowance is a
      gate on the net total; rates apply to the positive part of each bucket;
      India adds TDS on the net total and then the cess on the running sum. */
  function TaxOn(country: Country, shortTerm: real, longTerm: real): (tax: real)
    ensures tax >= 0.0
    ensures tax > 0.0 <==> shortTerm + longTerm > Rules(country).allowance
    ensures tax <= Max(shortTerm, 0.0) + Max(longTerm, 0.0)
  {
    var rules := Rules(country);
    var totalGains := shortTerm + longTerm;
    var taxableAmount := Max(0.0, totalGains - rules.allowance);
    if taxableAmount > 0.0 then
      var base := Max(0.0, shortTerm) * rules.shortTermRate + Max(0.0, longTerm) * rules.longTermRate;
      var withTds :=
        if country == IN && rules.tds.Some? && rules.tds.value != 0.0 then base + totalGains * rules.tds.value
        else base;
      if country == IN then withTds + withTds * IndiaCess else withTds
    else 0.0
  }

  /** The tax calculation over a batch of trades. */
  function CalculateTax(txs: seq<TransactionData>, country: Country, how: Method): (r: TaxCalculation)
    ensures r.realEarnings == 0.0 && r.inflationAdjustedReturn == 0.0
    ensures r.totalTax >= 0.0
    ensures r.totalTax > 0.0 <==> TotalGains(r) > Rules(country).allowance
    ensures r.totalTax <= Max(r.shortTermGains, 0.0) + Max(r.longTermGains, 0.0)
  {
    var l := Process(EmptyLedger, SortByTime(txs), how);
    TaxCalculation(l.shortTermGains, l.longTermGains, TaxOn(country, l.shortTermGains, l.longTermGains), 0.0, 0.0)
  }

  // ---------------------------------------------------------------------------
  // Open quantity bookkeeping

  /** What one lot contributes to the open quantity of `asset`. */
  function OpenShare(p: Position, asset: string): real
  {
    if IsOpenLotOf(p, asset) then p.quantity else 0.0
  }

  /** The total quantity of `asset` a sell could still draw on. */
  function OpenQuantity(lots: seq<Position>, asset: string): (total: real)
    ensures total >= 0.0
  {
    if |lots| == 0 then 0.0 else OpenShare(lots[0], asset) + OpenQuantity(lots[1..], asset)
  }

  /** Replacing one lot changes the open quantity by the change of its share. */
  lemma {:induction false} OpenQuantityUpdate(lots: seq<Position>, i: int, p: Position, asset: string)
    requires 0 <= i < |lots|
    ensures OpenQuantity(lots[i := p], asset) == OpenQuantity(lots, asset) - OpenShare(lots[i], asset) + OpenShare(p, asset)
  {
    if i == 0 {
      assert lots[i := p][1..] == lots[1..];
    } else {
      assert lots[i := p][1..] == lots[1..][i - 1 := p];
      OpenQuantityUpdate(lots[1..], i - 1, p, asset);
    }
  }

  /** No open lot of `asset`, no open quantity. */
  lemma {:induction false} OpenQuantityNone(lots: seq<Position>, asset: string)
    requires forall i :: 0 <= i < |lots| ==> !IsOpenLotOf(lots[i], asset)
    ensures OpenQuantity(lots, asset) == 0.0
  {
    if |lots| > 0 {
      OpenQuantityNone(lots[1..], asset);
    }
  }

  /** Matching removes exactly the matched quantity from the open quantity of
      the asset. */
  lemma {:induction false} MatchLotsConserves(lots: seq<Position>, order: seq<int>, asset: string, remaining: real)
    requires ValidOrder(lots, order)
    requires forall k :: 0 <= k < |order| ==> lots[order[k]].asset == asset
    ensures var r := MatchLots(lots, order, remaining);
      OpenQuantity(r.lots, asset) == OpenQuantity(lots, asset) - (remaining - r.unmatched)
    decreases |order|
  {
    if |order| > 0 && remaining > 0.0 {
      var i := order[0];
      var q := Min(remaining, lots[i].quantity);
      var next := TakeFirst(lots, order, q);
      var r := MatchLots(next, order[1..], remaining - q);
      assert OpenQuantity(next, asset) == OpenQuantity(lots, asset) - q by {
        OpenQuantityUpdate(lots, i, lots[i].(quantity := lots[i].quantity - q), asset);
      }
      assert OpenQuantity(r.lots, asset) == OpenQuantity(next, asset) - ((remaining - q) - r.unmatched) by {
        TailOrder(lots, order, q);
        MatchLotsConserves(next, order[1..], asset, remaining - q);
      }
      var m := MatchLots(lots, order, remaining);
      assert m.lots == r.lots && m.unmatched == r.unmatched;
    }
  }

  /** When some quantity stays unmatched, every listed lot has been emptied. */
  lemma {:induction false} MatchLotsExhausts(lots: seq<Position>, order: seq<int>, remaining: real)
    requires ValidOrder(lots, order)
    ensures var r := MatchLots(lots, order, remaining);
      remaining > 0.0 && r.unmatched > 0.0 ==> forall k :: 0 <= k < |order| ==> r.lots[order[k]].quantity == 0.0
    decreases |order|
  {
    if |order| > 0 && remaining > 0.0 {
      var i := order[0];
      var q := Min(remaining, lots[i].quantity);
      var next := TakeFirst(lots, order, q);
      var r := MatchLots(next, order[1..], remaining - q);
      var m := MatchLots(lots, order, remaining);
      assert m.lots == r.lots && m.unmatched == r.unmatched;
      if r.unmatched > 0.0 {
        assert forall k :: 0 <= k < |order[1..]| ==> r.lots[order[1..][k]].quantity == 0.0 by {
          TailOrder(lots, order, q);
          MatchLotsExhausts(next, order[1..], remaining - q);
        }
        assert r.lots[i].quantity == 0.0 by {
          assert q == lots[i].quantity by {
            TailOrder(lots, order, q);
            MatchLotsAmounts(next, order[1..], remaining - q);
          }
          assert i !in order[1..] by {
            assert forall k :: 0 <= k < |order| - 1 ==> order[1..][k] == order[k + 1];
          }
          TailOrder(lots, order, q);
          MatchLotsUntouched(next, order[1..], remaining - q);
        }
        EmptiedAlong(order, r.lots);
      }
    }
  }

  /** Emptied at the head and along the tail, emptied along the whole order. */
  lemma EmptiedAlong(order: seq<int>, lots: seq<Position>)
    requires |order| > 0
    requires forall k :: 0 <= k < |order| ==> 0 <= order[k] < |lots|
    requires lots[order[0]].quantity == 0.0
    requires forall k :: 0 <= k < |order[1..]| ==> lots[order[1..][k]].quantity == 0.0
    ensures forall k :: 0 <= k < |order| ==> lots[order[k]].quantity == 0.0
  {
    forall k | 0 < k < |order|
      ensures lots[order[k]].quantity == 0.0
    {
      assert order[1..][k - 1] == order[k];
    }
  }

  /** The decrease of the open quantity is `min(max(wanted, 0), open quantity)`. */
  lemma SellDecreasesOpenQuantity(lots: seq<Position>, order: seq<int>, asset: string, wanted: real, m: Match)
    requires ValidOrder(lots, order)
    requires forall k :: 0 <= k < |order| ==> lots[order[k]].asset == asset
    requires forall j :: 0 <= j < |lots| && IsOpenLotOf(lots[j], asset) ==> j in order
    requires m == MatchLots(lots, order, wanted)
    ensures OpenQuantity(m.lots, asset) == OpenQuantity(lots, asset) - Min(Max(wanted, 0.0), OpenQuantity(lots, asset))
  {
    MatchLotsConserves(lots, order, asset, wanted);
    MatchLotsAmounts(lots, order, wanted);
    UnmatchedLeavesNothingOpen(lots, order, asset, wanted, m);
    DecreaseArithmetic(wanted, m.unmatched, OpenQuantity(lots, asset), OpenQuantity(m.lots, asset));
  }

  lemma DecreaseArithmetic(wanted: real, unmatched: real, before: real, after: real)
    requires wanted <= 0.0 ==> unmatched == wanted
    requires wanted > 0.0 ==> 0.0 <= unmatched <= wanted
    requires after == before - (wanted - unmatched) && after >= 0.0
    requires wanted > 0.0 && unmatched > 0.0 ==> after == 0.0
    ensures after == before - Min(Max(wanted, 0.0), before)
  {
  }

  /** A sell left partly unmatched has emptied every open lot of its asset. */
  lemma UnmatchedLeavesNothingOpen(lots: seq<Position>, order: seq<int>, asset: string, wanted: real, m: Match)
    requires ValidOrder(lots, order)
    requires forall j :: 0 <= j < |lots| && IsOpenLotOf(lots[j], asset) ==> j in order
    requires m == MatchLots(lots, order, wanted)
    ensures wanted > 0.0 && m.unmatched > 0.0 ==> OpenQuantity(m.lots, asset) == 0.0
  {
    if wanted > 0.0 && m.unmatched > 0.0 {
      MatchLotsExhausts(lots, order, wanted);
      MatchLotsUntouched(lots, order, wanted);
      forall i | 0 <= i < |m.lots|
        ensures !IsOpenLotOf(m.lots[i], asset)
      {
        if i in order {
          var k :| 0 <= k < |order| && order[k] == i;
          assert m.lots[order[k]].quantity == 0.0;
        } else {
          assert m.lots[i] == lots[i];
        }
      }
      OpenQuantityNone(m.lots, asset);
    }
  }
}
