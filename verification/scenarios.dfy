/** Concrete runs of the model, taken from the repository's own test tables. */
module Scenarios {
  import opened Wrappers
  import opened Messages
  import Validation
  import Inventory
  import PawnShop
  import Server

  /** Fresh inventories of one and five slots. */
  lemma NewInventoryVectors()
    ensures Inventory.NewInventory(1) == Inventory.Inventory([1], 1, 0)
    ensures Inventory.NewInventory(5) == Inventory.Inventory([1, 1, 1, 1, 1], 1, 0)
  {
  }

  /** The profitability table, fast rejection: an offer below the cached minimum. */
  lemma ProfitableSlotFastPathVector()
    ensures Inventory.ProfitableSlot(Inventory.Inventory([3, 3, 3, 3, 3], 3, 0), Offer(PawnCode, 2, 1)) == None
  {
  }

  /** The profitability table, tie-breaks: the leftmost of the cheapest qualifying slots,
      also with a negative demand. */
  lemma ProfitableSlotTieBreakVectors()
    ensures Inventory.ProfitableSlot(Inventory.Inventory([1, 1, 1, 1, 1], 1, 0), Offer(PawnCode, 2, 1)) == Some(0)
    ensures Inventory.ProfitableSlot(Inventory.Inventory([2, 2, 1, 2, 2], 1, 0), Offer(PawnCode, 2, 1)) == Some(2)
    ensures Inventory.ProfitableSlot(Inventory.Inventory([2, 2, 1, 2, 2], 1, 0), Offer(PawnCode, 2, -13)) == Some(2)
  {
  }

  /** The profitability table, mixed stores: the cheapest slot meeting the demand. */
  lemma ProfitableSlotMixedVectors()
    ensures Inventory.ProfitableSlot(Inventory.Inventory([5, 3, 7, 10, 4], 3, 0), Offer(PawnCode, 5, 4)) == Some(4)
    ensures Inventory.ProfitableSlot(Inventory.Inventory([5, 3, 3, 10, 4], 3, 0), Offer(PawnCode, 11, 3)) == Some(1)
  {
  }

  /** The profitability table, no slot can serve: the offer equals the demand, or the
      demand exceeds every slot. */
  lemma ProfitableSlotNoSlotVectors()
    ensures Inventory.ProfitableSlot(Inventory.Inventory([2, 2, 1, 2, 2], 1, 0), Offer(PawnCode, 2, 2)) == None
    ensures Inventory.ProfitableSlot(Inventory.Inventory([1, 1, 1, 1, 1], 1, 0), Offer(PawnCode, 4, 2)) == None
  {
  }

  /** The exchange table, first rows: offers accepted on a fresh store, giving up the
      cached slot and so moving the cache to the next minimum. */
  lemma ExchangeAcceptVectors()
    ensures Inventory.Exchange(Inventory.Inventory([1, 1, 1, 1, 1], 1, 0), Offer(PawnCode, 2, 0))
         == (Inventory.Inventory([2, 1, 1, 1, 1], 1, 1), CreateAcceptedAnswer(1))
    ensures Inventory.Exchange(Inventory.Inventory([1, 1, 1, 1, 1], 1, 0), Offer(PawnCode, 2, 1))
         == (Inventory.Inventory([2, 1, 1, 1, 1], 1, 1), CreateAcceptedAnswer(1))
  {
    assert Inventory.ProfitableSlot(Inventory.Inventory([1, 1, 1, 1, 1], 1, 0), Offer(PawnCode, 2, 0)) == Some(0);
    assert Inventory.ProfitableSlot(Inventory.Inventory([1, 1, 1, 1, 1], 1, 0), Offer(PawnCode, 2, 1)) == Some(0);
    assert [1, 1, 1, 1, 1][0 := 2] == [2, 1, 1, 1, 1];
    assert Inventory.FirstMin([2, 1, 1, 1, 1]) == 1;
  }

  /** The exchange table, rejections: each leaves the store exactly as it was. */
  lemma ExchangeRejectVectors()
    ensures Inventory.Exchange(Inventory.Inventory([1, 1, 1, 1, 1], 1, 0), Offer(PawnCode, 2, 3))
         == (Inventory.Inventory([1, 1, 1, 1, 1], 1, 0), CreateRejectAnswer())
    ensures Inventory.Exchange(Inventory.Inventory([1, 1, 1, 1, 1], 1, 0), Offer(PawnCode, 1, 0))
         == (Inventory.Inventory([1, 1, 1, 1, 1], 1, 0), CreateRejectAnswer())
    ensures Inventory.Exchange(Inventory.Inventory([2, 2, 2, 2, 2], 2, 0), Offer(PawnCode, 1, 0))
         == (Inventory.Inventory([2, 2, 2, 2, 2], 2, 0), CreateRejectAnswer())
  {
  }

  /** The exchange table, a mixed store: a demand above every slot is rejected with the
      store unchanged. */
  lemma ExchangeRejectMixedVector()
    ensures Inventory.Exchange(Inventory.Inventory([7, 4, 5, 2, 7], 2, 3), Offer(PawnCode, 150, 100))
         == (Inventory.Inventory([7, 4, 5, 2, 7], 2, 3), CreateRejectAnswer())
  {
  }

  /** The exchange table on a mixed store: giving up a slot other than the cached one
      keeps the cache; giving up the cached one moves it to the new minimum. */
  lemma ExchangeMixedVectors()
    ensures Inventory.Exchange(Inventory.Inventory([7, 4, 5, 2, 7], 2, 3), Offer(PawnCode, 5, 4))
         == (Inventory.Inventory([7, 5, 5, 2, 7], 2, 3), CreateAcceptedAnswer(4))
    ensures Inventory.Exchange(Inventory.Inventory([7, 4, 5, 2, 7], 2, 3), Offer(PawnCode, 5, 2))
         == (Inventory.Inventory([7, 4, 5, 5, 7], 4, 1), CreateAcceptedAnswer(2))
  {
    assert Inventory.ProfitableSlot(Inventory.Inventory([7, 4, 5, 2, 7], 2, 3), Offer(PawnCode, 5, 4)) == Some(1);
    assert Inventory.ProfitableSlot(Inventory.Inventory([7, 4, 5, 2, 7], 2, 3), Offer(PawnCode, 5, 2)) == Some(3);
    assert [7, 4, 5, 2, 7][1 := 5] == [7, 5, 5, 2, 7];
    assert [7, 4, 5, 2, 7][3 := 5] == [7, 4, 5, 5, 7];
    assert Inventory.FirstMin([7, 4, 5, 5, 7]) == 1;
  }

  /** The printed forms of one, several and no values. */
  lemma RenderVectors()
    ensures Inventory.Render(Inventory.Inventory([1], 0, 0)) == "[1]"
    ensures Inventory.Render(Inventory.Inventory([1, 2, 3], 0, 0)) == "[1, 2, 3]"
    ensures Inventory.Render(Inventory.Inventory([], 0, 0)) == "[]"
  {
  }

  /** The profit rule table, including Go's zero-valued fields. */
  lemma ProfitRuleVectors()
    ensures Validation.EnsureProfitRule(Offer("", 2, 1)) == Pass
    ensures Validation.EnsureProfitRule(Offer("", 2, 3)).Fail?
    ensures Validation.EnsureProfitRule(Offer("", 2, 2)).Fail?
    ensures Validation.EnsureProfitRule(Offer("", 0, 1)).Fail?
    ensures Validation.EnsureProfitRule(Offer("", 1, 0)) == Pass
    ensures Validation.EnsureProfitRule(Offer("", 0, 0)).Fail?
  {
  }

  /** Validator construction with the profit rule and with a nil rule, and the chain over
      the profit rule. */
  lemma ValidatorVectors()
    ensures Validation.NewValidator([Some(Validation.EnsureProfitRule)]).Success?
    ensures Validation.NewValidator([None]) == Failure(Validation.NilRuleError)
    ensures Validation.Validate(Validation.Validator([Validation.EnsureProfitRule]), Offer("", 2, 1)) == Pass
    ensures Validation.Validate(Validation.Validator([Validation.EnsureProfitRule]), Offer("", 2, 3)).Fail?
  {
  }

  /** A chain with no rules accepts every offer, even one the profit rule would refuse. */
  lemma EmptyChainAccepts(o: Offer)
    ensures Validation.Validate(Validation.Validator([]), o) == Pass
  {
  }

  /** A stand-in handler that counts its calls and always accepts with value 1. */
  function CountingHandler(calls: nat, o: Offer): (r: (nat, Answer))
    ensures r.0 == calls + 1 && r.1 == CreateAcceptedAnswer(1)
  {
    (calls + 1, CreateAcceptedAnswer(1))
  }

  /** The shop forwards a valid offer to the handler exactly once and returns its answer;
      an invalid offer is rejected with the handler never called. */
  lemma ShopVectors()
    ensures PawnShop.HandleOffer(PawnShop.NewPawnShop(0, CountingHandler), Offer(PawnCode, 2, 1)).1 == CreateAcceptedAnswer(1)
    ensures PawnShop.HandleOffer(PawnShop.NewPawnShop(0, CountingHandler), Offer(PawnCode, 2, 1)).0.inventory == 1
    ensures PawnShop.HandleOffer(PawnShop.NewPawnShop(0, CountingHandler), Offer(PawnCode, 2, 5)).1 == CreateRejectAnswer()
    ensures PawnShop.HandleOffer(PawnShop.NewPawnShop(0, CountingHandler), Offer(PawnCode, 2, 5)).0.inventory == 0
  {
    PawnShop.ProfitRuleGuardsHandler(0, CountingHandler, Offer(PawnCode, 2, 1));
    PawnShop.ProfitRuleGuardsHandler(0, CountingHandler, Offer(PawnCode, 2, 5));
  }

  /** A size of zero is refused; a two-slot server accepts a PAWN offer of 5 against
      demand -2 with value 1 and rejects other codes, UNSUPPORTED among them. */
  lemma ServerVectors()
    ensures Server.NewPawnShopServer(0).Failure?
    ensures Server.HandleOffer(Server.NewPawnShopServer(2).value, Offer(PawnCode, 5, -2)).1 == CreateAcceptedAnswer(1)
    ensures Server.HandleOffer(Server.NewPawnShopServer(2).value, Offer("unsupported code", 5, -2)).1 == CreateRejectAnswer()
    ensures Server.HandleOffer(Server.NewPawnShopServer(2).value, Offer(UnsupportedCode, 5, -2)).1 == CreateRejectAnswer()
  {
  }

  /** The store's side of the end-to-end run, first offer: (7,1) takes slot 0, the
      cached slot, so the cache moves to slot 1. */
  lemma EndToEndStep1()
    ensures Inventory.Exchange(Inventory.Inventory([1, 1, 1, 1, 1], 1, 0), CreateOffer(7, 1))
         == (Inventory.Inventory([7, 1, 1, 1, 1], 1, 1), CreateAcceptedAnswer(1))
  {
    assert Inventory.ProfitableSlot(Inventory.Inventory([1, 1, 1, 1, 1], 1, 0), CreateOffer(7, 1)) == Some(0);
    assert [1, 1, 1, 1, 1][0 := 7] == [7, 1, 1, 1, 1];
    assert Inventory.FirstMin([7, 1, 1, 1, 1]) == 1;
  }

  /** Second offer: (5,3) finds no slot worth at least 3 and below 5. */
  lemma EndToEndStep2()
    ensures Inventory.Exchange(Inventory.Inventory([7, 1, 1, 1, 1], 1, 1), CreateOffer(5, 3))
         == (Inventory.Inventory([7, 1, 1, 1, 1], 1, 1), CreateRejectAnswer())
  {
    assert Inventory.ProfitableSlot(Inventory.Inventory([7, 1, 1, 1, 1], 1, 1), CreateOffer(5, 3)) == None;
  }

  /** Third offer: (4,1) takes slot 1, the cached slot, so the cache moves to slot 2. */
  lemma EndToEndStep3()
    ensures Inventory.Exchange(Inventory.Inventory([7, 1, 1, 1, 1], 1, 1), CreateOffer(4, 1))
         == (Inventory.Inventory([7, 4, 1, 1, 1], 1, 2), CreateAcceptedAnswer(1))
  {
    assert Inventory.ProfitableSlot(Inventory.Inventory([7, 1, 1, 1, 1], 1, 1), CreateOffer(4, 1)) == Some(1);
    assert [7, 1, 1, 1, 1][1 := 4] == [7, 4, 1, 1, 1];
    assert Inventory.FirstMin([7, 4, 1, 1, 1]) == 2;
  }

  /** Fourth offer: (25,8) finds no slot worth at least 8 and below 25. */
  lemma EndToEndStep4()
    ensures Inventory.Exchange(Inventory.Inventory([7, 4, 1, 1, 1], 1, 2), CreateOffer(25, 8))
         == (Inventory.Inventory([7, 4, 1, 1, 1], 1, 2), CreateRejectAnswer())
  {
    assert Inventory.ProfitableSlot(Inventory.Inventory([7, 4, 1, 1, 1], 1, 2), CreateOffer(25, 8)) == None;
  }

  /** The end-to-end run on five slots: offers (7,1), (5,3), (4,1), (25,8) are answered
      ACCEPT 1, REJECT, ACCEPT 1, REJECT and leave the store at [7, 4, 1, 1, 1]. */
  lemma EndToEnd()
    ensures var s0 := Server.NewPawnShopServer(5).value;
            var (s1, a1) := Server.HandleOffer(s0, CreateOffer(7, 1));
            var (s2, a2) := Server.HandleOffer(s1, CreateOffer(5, 3));
            var (s3, a3) := Server.HandleOffer(s2, CreateOffer(4, 1));
            var (s4, a4) := Server.HandleOffer(s3, CreateOffer(25, 8));
            && a1 == CreateAcceptedAnswer(1)
            && a2 == CreateRejectAnswer()
            && a3 == CreateAcceptedAnswer(1)
            && a4 == CreateRejectAnswer()
            && s4.shop.inventory.items == [7, 4, 1, 1, 1]
  {
    var s0 := Server.NewPawnShopServer(5).value;
    assert s0.shop.inventory == Inventory.Inventory([1, 1, 1, 1, 1], 1, 0);
    EndToEndStep1();
    EndToEndStep2();
    EndToEndStep3();
    EndToEndStep4();
    var (s1, a1) := Server.HandleOffer(s0, CreateOffer(7, 1));
    PawnShop.ProfitRuleGuardsHandler(s0.shop.inventory, Inventory.Exchange, CreateOffer(7, 1));
    assert s1.shop.inventory == Inventory.Inventory([7, 1, 1, 1, 1], 1, 1);
    var (s2, a2) := Server.HandleOffer(s1, CreateOffer(5, 3));
    PawnShop.ProfitRuleGuardsHandler(s1.shop.inventory, Inventory.Exchange, CreateOffer(5, 3));
    assert s2.shop.inventory == s1.shop.inventory;
    var (s3, a3) := Server.HandleOffer(s2, CreateOffer(4, 1));
    PawnShop.ProfitRuleGuardsHandler(s2.shop.inventory, Inventory.Exchange, CreateOffer(4, 1));
    assert s3.shop.inventory == Inventory.Inventory([7, 4, 1, 1, 1], 1, 2);
    PawnShop.ProfitRuleGuardsHandler(s3.shop.inventory, Inventory.Exchange, CreateOffer(25, 8));
  }
}
