/** The pawn shop: validation in front of an offer handler (the inventory). */
module PawnShop {
  import opened Wrappers
  import opened Messages
  import opened Validation
  import Inventory

  /** A shop over an offer handler. The handler is its state `inventory` together with the
      function that handles one offer against that state. */
  datatype PawnShop<!S> = PawnShop(inventory: S, handler: (S, Offer) -> (S, Answer), validator: Validator)

  /** A shop whose validation chain is exactly the profit rule. */
  function NewPawnShop<S>(inv: S, handler: (S, Offer) -> (S, Answer)): (shop: PawnShop<S>)
    ensures shop.inventory == inv && shop.handler == handler
    ensures shop.validator.rules == [EnsureProfitRule]
  {
    PawnShop(inv, handler, NewValidator([Some(EnsureProfitRule)]).value)
  }

  /** A shop backed by the matching store. */
  function NewInventoryShop(inv: Inventory.Inventory): (shop: PawnShop<Inventory.Inventory>)
    ensures shop.inventory == inv && shop.handler == Inventory.Exchange
    ensures shop.validator.rules == [EnsureProfitRule]
  {
    NewPawnShop(inv, Inventory.Exchange)
  }

  /** Validates first; an invalid offer is rejected with the handler left alone, a valid
      one gets exactly the handler's answer. */
  function HandleOffer<S>(shop: PawnShop<S>, o: Offer): (r: (PawnShop<S>, Answer))
    ensures r.0.validator == shop.validator && r.0.handler == shop.handler
    ensures Validate(shop.validator, o).Fail? ==> r.0 == shop && r.1 == CreateRejectAnswer()
    ensures Validate(shop.validator, o).Pass? ==> (r.0.inventory, r.1) == shop.handler(shop.inventory, o)
  {
    if Validate(shop.validator, o).Fail? then (shop, CreateRejectAnswer())
    else
      var (inv', answer) := shop.handler(shop.inventory, o);
      (shop.(inventory := inv'), answer)
  }

  /** A rejected offer never reaches the handler: swapping in any other handler gives the
      same answer and the same state. */
  lemma InvalidOfferSkipsHandler<S>(shop: PawnShop<S>, other: (S, Offer) -> (S, Answer), o: Offer)
    requires Validate(shop.validator, o).Fail?
    ensures HandleOffer(shop.(handler := other), o).1 == HandleOffer(shop, o).1
    ensures HandleOffer(shop.(handler := other), o).0.inventory == shop.inventory
  {
  }

  /** In a shop from `NewPawnShop`, an offer not above its demand is rejected before the
      handler, whatever the handler is; an offer above it goes to the handler. */
  lemma ProfitRuleGuardsHandler<S>(inv: S, handler: (S, Offer) -> (S, Answer), o: Offer)
    ensures o.offer <= o.demand ==> HandleOffer(NewPawnShop(inv, handler), o) == (NewPawnShop(inv, handler), CreateRejectAnswer())
    ensures o.offer > o.demand ==> (HandleOffer(NewPawnShop(inv, handler), o).0.inventory, HandleOffer(NewPawnShop(inv, handler), o).1) == handler(inv, o)
  {
    var shop := NewPawnShop(inv, handler);
    assert Validate(shop.validator, o) == EnsureProfitRule(o);
  }

  /** The two checks agree: an offer the profit rule turns away would be rejected, with
      nothing changed, by the store on its own. */
  lemma StoreAlsoRejectsUnprofitable(inv: Inventory.Inventory, o: Offer)
    requires o.offer <= o.demand
    ensures Inventory.Exchange(inv, o) == (inv, CreateRejectAnswer())
    ensures HandleOffer(NewInventoryShop(inv), o) == (NewInventoryShop(inv), CreateRejectAnswer())
  {
    ProfitRuleGuardsHandler(inv, Inventory.Exchange, o);
  }

  /** A shop over a store keeps the store's cache invariant on every offer. */
  lemma ShopKeepsStoreValid(shop: PawnShop<Inventory.Inventory>, o: Offer)
    requires shop.handler == Inventory.Exchange
    requires Inventory.Valid(shop.inventory)
    ensures Inventory.Valid(HandleOffer(shop, o).0.inventory)
  {
  }
}
