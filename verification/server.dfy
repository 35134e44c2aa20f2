/** The server's offer routing and its construction; connection handling is not modelled. */
module Server {
  import opened Wrappers
  import opened Messages
  import Validation
  import Inventory
  import PawnShop

  /** The default listening address. */
  const Addr: string := "127.0.0.1:8080"
  const InvalidSizeError: string := "inventory size must be at least 1"

  /** A server routing offers to a pawn shop backed by the matching store. */
  datatype PawnShopServer = PawnShopServer(addr: string, isRunning: bool, shop: PawnShop.PawnShop<Inventory.Inventory>)

  /** A server over a fresh store of `sz` slots; a size below one is refused with no server. */
  function NewPawnShopServer(sz: int): (r: Result<PawnShopServer, string>)
    ensures r.Failure? <==> sz < 1
    ensures r.Failure? ==> r.error == InvalidSizeError
    ensures r.Success? ==> r.value.addr == Addr && !r.value.isRunning
    ensures r.Success? ==> |r.value.shop.inventory.items| == sz && Inventory.Canonical(r.value.shop.inventory)
    ensures r.Success? ==> forall j :: 0 <= j < sz ==> r.value.shop.inventory.items[j] == Inventory.DefaultItemValue
    ensures r.Success? ==> r.value.shop.handler == Inventory.Exchange
    ensures r.Success? ==> r.value.shop.validator.rules == [Validation.EnsureProfitRule]
  {
    if sz < 1 then Failure(InvalidSizeError)
    else
      var inv := Inventory.NewInventory(sz);
      Success(PawnShopServer(Addr, false, PawnShop.NewInventoryShop(inv)))
  }

  /** Routing on the request code: an exchange request gets exactly the shop's answer,
      any other code is rejected with nothing changed. */
  function HandleOffer(srv: PawnShopServer, o: Offer): (r: (PawnShopServer, Answer))
    ensures r.0.addr == srv.addr && r.0.isRunning == srv.isRunning
    ensures o.code != PawnCode ==> r == (srv, CreateRejectAnswer())
    ensures o.code == PawnCode ==> (r.0.shop, r.1) == PawnShop.HandleOffer(srv.shop, o)
  {
    if o.code == PawnCode then
      var (shop', answer) := PawnShop.HandleOffer(srv.shop, o);
      (srv.(shop := shop'), answer)
    else (srv, CreateRejectAnswer())
  }

  /** An unsupported request never reaches the shop: with any other shop in its place the
      answer is the same rejection and the server is unchanged. */
  lemma UnsupportedCodeSkipsShop(srv: PawnShopServer, other: PawnShop.PawnShop<Inventory.Inventory>, o: Offer)
    requires o.code != PawnCode
    ensures HandleOffer(srv.(shop := other), o).1 == HandleOffer(srv, o).1 == CreateRejectAnswer()
    ensures HandleOffer(srv, o).0 == srv
  {
  }

  /** Every offer built by `CreateOffer` is routed to the shop. */
  lemma CreatedOffersReachShop(srv: PawnShopServer, offer: int, demand: int)
    ensures HandleOffer(srv, CreateOffer(offer, demand)).1 == PawnShop.HandleOffer(srv.shop, CreateOffer(offer, demand)).1
  {
  }

  /** A server keeps its store's cache invariant across any offer, whatever its code. */
  lemma ServerKeepsStoreValid(srv: PawnShopServer, o: Offer)
    requires srv.shop.handler == Inventory.Exchange
    requires Inventory.Valid(srv.shop.inventory)
    ensures Inventory.Valid(HandleOffer(srv, o).0.shop.inventory)
    ensures |HandleOffer(srv, o).0.shop.inventory.items| == |srv.shop.inventory.items|
  {
    if o.code == PawnCode {
      PawnShop.ShopKeepsStoreValid(srv.shop, o);
    }
  }
}
