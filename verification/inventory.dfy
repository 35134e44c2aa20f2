/** The matching store: a fixed-length list of unit values with a cached minimum,
    and the offer evaluation that swaps an offered unit for a held one. */
module Inventory {
  import opened Wrappers
  import opened Messages
  import Strconv

  /** The value every slot holds when the inventory is created. */
  const DefaultItemValue: int := 1

  /** The held unit values, the cached smallest value and one position holding it.
      The mutex guarding these fields is not modelled: every operation is one atomic step. */
  datatype Inventory = Inventory(items: seq<int>, smallestValue: int, smallestValueIndex: int)

  /** `k` is a position holding the least value of `items`. */
  predicate IsMinIndex(items: seq<int>, k: int) {
    0 <= k < |items| && forall j :: 0 <= j < |items| ==> items[k] <= items[j]
  }

  /** `k` is the leftmost position holding the least value of `items`. */
  predicate IsFirstMinIndex(items: seq<int>, k: int) {
    IsMinIndex(items, k) && forall j :: 0 <= j < k ==> items[k] < items[j]
  }

  /** The cache invariant: `smallestValue` is the minimum of `items` and
      `smallestValueIndex` is a position holding it. */
  predicate Valid(inv: Inventory) {
    IsMinIndex(inv.items, inv.smallestValueIndex) && inv.items[inv.smallestValueIndex] == inv.smallestValue
  }

  /** The stronger invariant the store actually keeps: the cached index is the leftmost minimum. */
  predicate Canonical(inv: Inventory) {
    Valid(inv) && IsFirstMinIndex(inv.items, inv.smallestValueIndex)
  }

  /** A held unit worth `item` may be given up for `o`: it meets the demand and the
      exchange is strictly profitable for the store. */
  predicate Qualifies(item: int, o: Offer) {
    item >= o.demand && o.offer > item
  }

  predicate AnyQualifies(items: seq<int>, o: Offer) {
    exists j :: 0 <= j < |items| && Qualifies(items[j], o)
  }

  /** `i` is the slot to give up for `o`: it qualifies, no qualifying slot is cheaper,
      and no qualifying slot to its left is as cheap. */
  predicate IsBestSlot(items: seq<int>, o: Offer, i: int) {
    && 0 <= i < |items|
    && Qualifies(items[i], o)
    && (forall j :: 0 <= j < |items| && Qualifies(items[j], o) ==> items[i] <= items[j])
    && (forall j :: 0 <= j < i && Qualifies(items[j], o) ==> items[i] < items[j])
  }

  /** At most one slot is the best one. */
  lemma BestSlotUnique(items: seq<int>, o: Offer, i: int, j: int)
    requires IsBestSlot(items, o, i) && IsBestSlot(items, o, j)
    ensures i == j
  {
  }

  /** The best slot among positions `k..`, chosen right to left (a reference definition
      independent of the left-to-right scan of the store). */
  function BestSlotFrom(items: seq<int>, o: Offer, k: nat): (r: Option<nat>)
    requires k <= |items|
    ensures r.Some? ==> k <= r.value < |items| && Qualifies(items[r.value], o)
    ensures r.Some? ==> forall j :: k <= j < |items| && Qualifies(items[j], o) ==> items[r.value] <= items[j]
    ensures r.Some? ==> forall j :: k <= j < r.value && Qualifies(items[j], o) ==> items[r.value] < items[j]
    ensures r.None? ==> forall j :: k <= j < |items| ==> !Qualifies(items[j], o)
    decreases |items| - k
  {
    if k == |items| then None
    else
      var rest := BestSlotFrom(items, o, k + 1);
      if Qualifies(items[k], o) && (rest.None? || items[k] <= items[rest.value]) then Some(k) else rest
  }

  /** The best slot to give up for `o`, if any slot qualifies. */
  function BestSlot(items: seq<int>, o: Offer): (r: Option<nat>)
    ensures r.Some? <==> AnyQualifies(items, o)
    ensures r.Some? ==> IsBestSlot(items, o, r.value)
  {
    BestSlotFrom(items, o, 0)
  }

  /** The leftmost minimum among positions `k..`, chosen right to left. */
  function FirstMinFrom(items: seq<int>, k: nat): (r: nat)
    requires k < |items|
    ensures k <= r < |items|
    ensures forall j :: k <= j < |items| ==> items[r] <= items[j]
    ensures forall j :: k <= j < r ==> items[r] < items[j]
    decreases |items| - k
  {
    if k == |items| - 1 then k
    else
      var m := FirstMinFrom(items, k + 1);
      if items[k] <= items[m] then k else m
  }

  /** The leftmost position of the minimum of a non-empty list. */
  function FirstMin(items: seq<int>): (r: nat)
    requires |items| > 0
    ensures IsFirstMinIndex(items, r)
  {
    FirstMinFrom(items, 0)
  }

  /** A fresh inventory: `size` slots of the default value, the cache on slot 0. */
  function NewInventory(size: nat): (inv: Inventory)
    ensures |inv.items| == size
    ensures forall j :: 0 <= j < size ==> inv.items[j] == DefaultItemValue
    ensures inv.smallestValue == DefaultItemValue && inv.smallestValueIndex == 0
    ensures size >= 1 <==> Canonical(inv)
  {
    Inventory(seq(size, _ => DefaultItemValue), DefaultItemValue, 0)
  }

  /** Under the cache invariant an offer not above the cached minimum cannot be
      profitable against any slot; this is what makes the fast rejection sound. */
  lemma FastPathSound(inv: Inventory, o: Offer)
    requires Valid(inv)
    requires o.offer <= inv.smallestValue
    ensures !AnyQualifies(inv.items, o)
  {
  }

  /** The profitability decision: the slot to give up for `o`, or None. Offers not above
      the cached minimum are turned down without looking at the slots. */
  function ProfitableSlot(inv: Inventory, o: Offer): (r: Option<nat>)
    ensures o.offer <= inv.smallestValue ==> r.None?
    ensures r.Some? ==> IsBestSlot(inv.items, o, r.value)
    ensures o.offer > inv.smallestValue ==> (r.Some? <==> AnyQualifies(inv.items, o))
    ensures Valid(inv) ==> (r.Some? <==> AnyQualifies(inv.items, o))
  {
    if o.offer <= inv.smallestValue then
      if Valid(inv) then FastPathSound(inv, o); None else None
    else BestSlot(inv.items, o)
  }

  /** The store's profitability check: the fast rejection on the cached minimum, then one
      left-to-right scan keeping the cheapest qualifying slot (strict `<`, so the first
      of equally cheap slots wins). Rejection reports index 0. */
  method IsProfitable(inv: Inventory, o: Offer) returns (ok: bool, idx: int)
    ensures ok == ProfitableSlot(inv, o).Some?
    ensures idx == ProfitableSlot(inv, o).GetOr(0)
  {
    if o.offer <= inv.smallestValue {
      return false, 0;
    }
    var items := inv.items;
    var bestVal := 0;
    var bestIdx := -1;
    var k := 0;
    while k < |items|
      invariant 0 <= k <= |items|
      invariant bestIdx == -1 ==> forall j :: 0 <= j < k ==> !Qualifies(items[j], o)
      invariant bestIdx != -1 ==> 0 <= bestIdx < k && bestVal == items[bestIdx] && Qualifies(bestVal, o)
      invariant bestIdx != -1 ==> forall j :: 0 <= j < k && Qualifies(items[j], o) ==> bestVal <= items[j]
      invariant bestIdx != -1 ==> forall j :: 0 <= j < bestIdx && Qualifies(items[j], o) ==> bestVal < items[j]
    {
      var item := items[k];
      if item >= o.demand && o.offer > item && (bestIdx == -1 || item < bestVal) {
        bestVal := item;
        bestIdx := k;
      }
      k := k + 1;
    }
    if bestIdx == -1 {
      return false, 0;
    }
    BestSlotUnique(items, o, bestIdx, BestSlot(items, o).value);
    return true, bestIdx;
  }

  /** The rescan of the cache: the smallest value and the first position holding it. */
  method RescanMin(items: seq<int>) returns (v: int, k: int)
    requires |items| > 0
    ensures k == FirstMin(items)
    ensures v == items[k]
  {
    v := items[0];
    k := 0;
    var j := 1;
    while j < |items|
      invariant 1 <= j <= |items|
      invariant 0 <= k < j && v == items[k]
      invariant forall m :: 0 <= m < j ==> v <= items[m]
      invariant forall m :: 0 <= m < k ==> v < items[m]
    {
      if items[j] < v {
        v := items[j];
        k := j;
      }
      j := j + 1;
    }
  }

  /** One offer against the store. A rejection changes nothing. An acceptance gives up
      the best slot, returning its old value, puts the offer in its place, and
      recomputes the cache only when the slot given up was the cached one. */
  function Exchange(inv: Inventory, o: Offer): (r: (Inventory, Answer))
    ensures IsAccepted(r.1) || IsRejected(r.1)
    ensures IsAccepted(r.1) <==> o.offer > inv.smallestValue && AnyQualifies(inv.items, o)
    ensures IsRejected(r.1) ==> r == (inv, CreateRejectAnswer())
    ensures IsAccepted(r.1) ==> exists i ::
      && IsBestSlot(inv.items, o, i)
      && r.1.value == inv.items[i]
      && r.0.items == inv.items[i := o.offer]
      && (i != inv.smallestValueIndex ==>
            r.0.smallestValue == inv.smallestValue && r.0.smallestValueIndex == inv.smallestValueIndex)
      && (i == inv.smallestValueIndex ==>
            IsFirstMinIndex(r.0.items, r.0.smallestValueIndex) && r.0.smallestValue == r.0.items[r.0.smallestValueIndex])
    ensures |r.0.items| == |inv.items|
    ensures Valid(inv) ==> Valid(r.0)
    ensures Canonical(inv) ==> Canonical(r.0)
  {
    match ProfitableSlot(inv, o)
    case None => (inv, CreateRejectAnswer())
    case Some(i) =>
      var items := inv.items[i := o.offer];
      var inv' :=
        if i == inv.smallestValueIndex then
          var k := FirstMin(items);
          Inventory(items, items[k], k)
        else inv.(items := items);
      (inv', CreateAcceptedAnswer(inv.items[i]))
  }

  /** The store's offer handler: evaluates the offer and performs the exchange. */
  method HandleOffer(inv: Inventory, o: Offer) returns (inv': Inventory, a: Answer)
    ensures (inv', a) == Exchange(inv, o)
  {
    var ok, idx := IsProfitable(inv, o);
    if !ok {
      return inv, CreateRejectAnswer();
    }
    var valToRet := inv.items[idx];
    var items := inv.items[idx := o.offer];
    inv' := inv.(items := items);
    if idx == inv.smallestValueIndex {
      var newSmValue, newSmValueIdx := RescanMin(items);
      inv' := Inventory(items, newSmValue, newSmValueIdx);
    }
    a := CreateAcceptedAnswer(valToRet);
  }

  /** An exchange changes at most the slot it gives up, and that slot strictly grows to
      the offered value; so slot values never decrease. */
  lemma ExchangeOnlyRaisesOneSlot(inv: Inventory, o: Offer)
    ensures forall j :: 0 <= j < |inv.items| ==> inv.items[j] <= Exchange(inv, o).0.items[j]
    ensures forall j :: 0 <= j < |inv.items| && Exchange(inv, o).0.items[j] != inv.items[j] ==>
      Exchange(inv, o).0.items[j] == o.offer > inv.items[j]
    ensures forall j, m :: 0 <= j < m < |inv.items| && Exchange(inv, o).0.items[j] != inv.items[j] ==> Exchange(inv, o).0.items[m] == inv.items[m]
  {
  }

  /** The store over a run of offers handled one after another. */
  function ExchangeAll(inv: Inventory, offers: seq<Offer>): (r: (Inventory, seq<Answer>))
    ensures |r.1| == |offers|
    decreases |offers|
  {
    if |offers| == 0 then (inv, [])
    else
      var (next, answer) := Exchange(inv, offers[0]);
      var (last, answers) := ExchangeAll(next, offers[1..]);
      (last, [answer] + answers)
  }

  /** After any run of offers the cache invariant still holds, the length is unchanged
      and no slot has decreased. */
  lemma {:induction false} ExchangeAllKeepsInvariant(inv: Inventory, offers: seq<Offer>)
    requires Valid(inv)
    ensures Valid(ExchangeAll(inv, offers).0)
    ensures |ExchangeAll(inv, offers).0.items| == |inv.items|
    ensures forall j :: 0 <= j < |inv.items| ==> inv.items[j] <= ExchangeAll(inv, offers).0.items[j]
    decreases |offers|
  {
    if |offers| > 0 {
      var next := Exchange(inv, offers[0]).0;
      ExchangeOnlyRaisesOneSlot(inv, offers[0]);
      ExchangeAllKeepsInvariant(next, offers[1..]);
    }
  }

  /** The printed form of the inventory: the values in order, ", "-separated, in brackets. */
  function Render(inv: Inventory): (s: string)
    ensures |s| >= 2 && s[0] == '[' && s[|s| - 1] == ']'
    ensures s == "[]" <==> |inv.items| == 0
  {
    "[" + Strconv.Join(Strconv.ItoaAll(inv.items), ", ") + "]"
  }

  /** Reads a printed inventory back into its list of values. */
  function ParseRendered(s: string): Option<seq<int>>
  {
    if |s| >= 2 && s[0] == '[' && s[|s| - 1] == ']' then
      var body := s[1..|s| - 1];
      if body == "" then Some([]) else Strconv.ParseIntList(body)
    else None
  }

  /** The printed form loses nothing: it reads back to exactly the held values. */
  lemma RenderRoundTrip(inv: Inventory)
    ensures ParseRendered(Render(inv)) == Some(inv.items)
  {
    var s := Render(inv);
    var body := Strconv.Join(Strconv.ItoaAll(inv.items), ", ");
    assert s[1..|s| - 1] == body;
    if |inv.items| > 0 {
      Strconv.JoinedIntsRoundTrip(inv.items);
    }
  }
}
