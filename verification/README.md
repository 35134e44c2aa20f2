# Pawnshop offer matching, modelled in Dafny

The pawnshop server takes offers. An offer says what the client gives (`offer`) and the
least it wants back (`demand`). The server answers each one against a fixed-size
inventory of integer unit values. This project models the server's decision pipeline as
pure functions over immutable datatypes, and proves properties of it:

- **Router** (`Server.HandleOffer`). Only requests coded `"PAWN"` go further. Every other
  code gets `REJECT`. `Server.NewPawnShopServer` refuses inventory sizes below one.
- **Validation chain** (`Validation`). An ordered list of rules, run with short-circuit.
  Building a chain fails if any entry is nil. The one shipped rule demands
  `offer > demand`.
- **Pawn shop** (`PawnShop.HandleOffer`). It validates first. Only a valid offer is passed
  to the offer handler, which is the inventory.
- **Matching store** (`Inventory`). It holds the items, the cached smallest value and one
  index holding it. An offer not above the cached minimum is rejected at once. Otherwise
  one scan finds the cheapest slot `i` with `demand <= items[i] < offer`; among equally
  cheap slots the leftmost wins. On acceptance the offer takes that slot and the old value
  goes back to the client. The minimum is rescanned only when the cached slot was the one
  replaced.
- **Messages** (`Messages`). The offer and answer records, the four codes and the
  constructors.

Go's mutable `Inventory` becomes the datatype `Inventory.Inventory`. The Go loops are Dafny
methods without side effects. `IsProfitable` returns `(ok, idx)`, `RescanMin` returns the
smallest value and its index, and `HandleOffer` returns the new store and the answer. Each
is proved equal to a functional reference definition: `ProfitableSlot`, `FirstMin` and
`Exchange`. `BestSlot` and `FirstMin` pick their answer right to left. The store's loops
scan left to right. So the equality proofs compare two independent definitions.

The Go `offerHandler` interface becomes a state plus a handler function
(`PawnShop.PawnShop<S>`). Because of this, "the handler is not called" can be stated
directly: swapping in any other handler changes nothing. Validation rules are closures
from an offer to `Pass` or `Fail(message)`. A nil rule is `None`.

The central invariant is `Inventory.Valid`: `smallestValue` is the minimum of `items` and
`items[smallestValueIndex]` holds it. It is what makes the fast rejection sound
(`FastPathSound`), and every exchange preserves it (`Exchange`, `ExchangeAllKeepsInvariant`).
The store also keeps a stronger invariant, `Inventory.Canonical`: the cached index is the
leftmost minimum.

An `Answer` is a code plus an integer `value`, zero on a rejection. `Value` is a plain
`int` (server/pkg/messages/messages.go:35), and only its JSON `omitempty` tag leaves a zero
out. The size check is in `NewPawnShopServer` (server/pkg/server/server.go:47), not in
`NewInventory`. A nil rule makes `newValidator` fail (server/pkg/pawnshop/validator.go:27-28).

Files: `wrappers.dfy` (Option/Result/Outcome), `messages.dfy`, `strconv.dfy` (decimal
rendering and its parser), `inventory.dfy`, `validation.dfy`, `pawnshop.dfy`, `server.dfy`,
`scenarios.dfy` (the repository's test tables as lemmas).

## Model

| member | source | states |
|---|---|---|
| Messages.CreateOffer | server/pkg/messages/messages.go:22-28 | the offer carries code PAWN and exactly the given offer and demand |
| Messages.CreateAcceptedAnswer | server/pkg/messages/messages.go:41-46 | the answer is accepted, not rejected, and carries the given value |
| Messages.CreateRejectAnswer | server/pkg/messages/messages.go:51-55 | the answer is rejected, not accepted, with value zero |
| Messages.CodesDistinct | server/pkg/messages/messages.go:3-8 | the four codes are pairwise distinct, so no answer is both accepted and rejected |
| Messages.AnswerConstructorsRecognised | server/pkg/messages/messages.go:33-55 | an answer is accepted exactly when it is the accepted answer of its value; a rejected zero-valued answer is exactly the reject answer |
| Inventory.NewInventory | server/pkg/inventory/inventory.go:34-47 | `size` slots all holding 1, cache 1 at index 0; the cache invariant (leftmost form) holds exactly when size is at least 1 |
| Inventory.BestSlot | server/pkg/inventory/inventory.go:119-139 | reference choice of the slot to give up: some slot is returned exactly when one satisfies demand <= value < offer, and it is the cheapest such slot, the leftmost among equals |
| Inventory.BestSlotUnique | server/pkg/inventory/inventory.go:124-131 | at most one slot meets the best-slot description, so the tie-break makes the choice deterministic |
| Inventory.FirstMin | server/pkg/inventory/inventory.go:76-83 | reference choice of the rescan: the leftmost position of the minimum |
| Inventory.FastPathSound | server/pkg/inventory/inventory.go:114-117 | under the cache invariant an offer not above the cached minimum qualifies against no slot |
| Inventory.ProfitableSlot | server/pkg/inventory/inventory.go:113-140 | offers not above the cached minimum are refused; above it a slot is found exactly when one qualifies, and it is the best slot; under the cache invariant the fast path agrees with a full scan |
| Inventory.IsProfitable | server/pkg/inventory/inventory.go:113-140 | the fast rejection followed by the left-to-right scan with strict `<` returns (true, best slot) or (false, 0), as ProfitableSlot decides |
| Inventory.RescanMin | server/pkg/inventory/inventory.go:75-87 | the rescan loop returns the leftmost index of the minimum and the value there |
| Inventory.Exchange | server/pkg/inventory/inventory.go:54-90 | a rejection changes nothing; acceptance happens exactly when the offer exceeds the cached minimum and a slot qualifies; the best slot's old value is returned and the offer replaces it; the cache is kept unless that slot was the cached one, and is then the leftmost minimum; the length is kept; the cache invariant and its leftmost form are preserved |
| Inventory.HandleOffer | server/pkg/inventory/inventory.go:54-90 | the store's handler, with its two loops, computes exactly Exchange |
| Inventory.ExchangeOnlyRaisesOneSlot | server/pkg/inventory/inventory.go:66-70 | at most one slot changes, and it strictly grows to the offered value, so no slot ever decreases |
| Inventory.ExchangeAllKeepsInvariant | server/pkg/inventory/inventory.go:72-87 | after any run of offers the cache invariant holds, the length is unchanged and every slot is at least its old value |
| Inventory.Render | server/pkg/inventory/inventory.go:95-105 | the printed form is bracketed, and is "[]" exactly for an empty inventory |
| Inventory.RenderRoundTrip | server/pkg/inventory/inventory.go:99-104 | the printed form reads back to exactly the held values, in order |
| Strconv.Itoa | server/pkg/inventory/inventory.go:101 | a non-empty string of digits, with a leading '-' exactly for negative numbers and no leading zero (only 0 itself starts with '0') |
| Strconv.ItoaRoundTrip | server/pkg/inventory/inventory.go:101 | the decimal rendering of every integer parses back to that integer |
| Strconv.JoinedIntsRoundTrip | server/pkg/inventory/inventory.go:104 | joining the renderings with ", " loses nothing: parsing gives back the list |
| Validation.EnsureProfitRule | server/pkg/pawnshop/validator_rules.go:16-22 | the rule fails exactly when offer <= demand, with the message "offer must be greater than demand" |
| Validation.EnsureProfitIgnoresCode | server/pkg/pawnshop/validator_rules.go:16-17 | the rule's result does not depend on the request code |
| Validation.CollectRules | server/pkg/pawnshop/validator.go:26-30 | no rule list exactly when some entry is nil; otherwise the entries in order |
| Validation.NewValidator | server/pkg/pawnshop/validator.go:25-35 | construction fails, with no validator, exactly when some entry is nil, wherever it sits; otherwise the validator keeps the rules in order |
| Validation.Validate | server/pkg/pawnshop/validator.go:40-47 | passes exactly when every rule passes (so an empty chain accepts everything); a failure is the error of some rule all of whose predecessors passed |
| Validation.ValidateStopsAtFirstFailure | server/pkg/pawnshop/validator.go:41-44 | the first failing rule's error is returned, whatever rules follow it |
| PawnShop.NewPawnShop | server/pkg/pawnshop/pawnshop.go:38-47 | the shop wraps the given handler and its chain is exactly the profit rule |
| PawnShop.NewInventoryShop | server/pkg/server/server.go:51-53 | a shop built over a store uses the store's exchange as its handler, with the profit rule in front |
| PawnShop.HandleOffer | server/pkg/pawnshop/pawnshop.go:53-63 | a failing validation gives REJECT with the shop unchanged; a passing one gives exactly the handler's answer and new state |
| PawnShop.InvalidOfferSkipsHandler | server/pkg/pawnshop/pawnshop.go:56-60 | on a failing validation the result is the same for every handler, so the handler is never consulted |
| PawnShop.ProfitRuleGuardsHandler | server/pkg/pawnshop/pawnshop.go:39-41 | with the shipped chain, offer <= demand is rejected before the handler, and offer > demand gets the handler's result |
| PawnShop.StoreAlsoRejectsUnprofitable | server/pkg/inventory/inventory.go:126-127 | the store alone also rejects, unchanged, any offer with offer <= demand, so the two checks agree |
| PawnShop.ShopKeepsStoreValid | server/pkg/pawnshop/pawnshop.go:62 | a shop over a store keeps the store's cache invariant |
| Server.NewPawnShopServer | server/pkg/server/server.go:46-70 | a size below one is an error with no server; otherwise a server on the default address, not running, over a fresh store of exactly that many slots of value 1 with a valid cache, the store's exchange as handler and the profit rule in front |
| Server.HandleOffer | server/pkg/server/server.go:215-222 | code PAWN gets exactly the shop's answer and state; any other code gets REJECT with nothing changed |
| Server.UnsupportedCodeSkipsShop | server/pkg/server/server.go:219-220 | for any other code the answer is REJECT whichever shop is installed, so the shop is never consulted |
| Server.CreatedOffersReachShop | server/pkg/server/server.go:216-218 | every offer made by CreateOffer is routed to the shop |
| Server.ServerKeepsStoreValid | server/pkg/server/server.go:215-222 | the server keeps its store's cache invariant and length across any request |
| Scenarios.NewInventoryVectors | server/pkg/inventory/inventory_test.go:10-41 | fresh stores of sizes 1 and 5 |
| Scenarios.ProfitableSlotFastPathVector | server/pkg/inventory/inventory_test.go:222-232 | an offer below the cached minimum is refused |
| Scenarios.ProfitableSlotTieBreakVectors | server/pkg/inventory/inventory_test.go:233-268 | the leftmost cheapest slot wins, including index 2 on [2,2,1,2,2] with demand 1 or -13 |
| Scenarios.ProfitableSlotMixedVectors | server/pkg/inventory/inventory_test.go:280-303 | on mixed stores the cheapest slot meeting the demand is chosen |
| Scenarios.ProfitableSlotNoSlotVectors | server/pkg/inventory/inventory_test.go:269-279 | offer equal to demand, or a demand above every slot, finds no slot |
| Scenarios.ExchangeAcceptVectors | server/pkg/inventory/inventory_test.go:55-90 | offers accepted on a fresh store move the cache from slot 0 to slot 1 |
| Scenarios.ExchangeRejectVectors | server/pkg/inventory/inventory_test.go:91-141 | rejected offers on uniform stores leave items and cache unchanged |
| Scenarios.ExchangeRejectMixedVector | server/pkg/inventory/inventory_test.go:178-194 | (150,100) on [7,4,5,2,7] is rejected with items and cache unchanged |
| Scenarios.ExchangeMixedVectors | server/pkg/inventory/inventory_test.go:142-177 | on [7,4,5,2,7] a non-cached slot keeps the cache; replacing the cached slot moves it to value 4 at index 1 |
| Scenarios.RenderVectors | server/pkg/inventory/inventory_test.go:331-363 | "[1]", "[1, 2, 3]" and "[]" |
| Scenarios.ProfitRuleVectors | server/pkg/pawnshop/validator_rules_test.go:10-74 | the profit-rule table, including offers and demands left at Go's zero value |
| Scenarios.ValidatorVectors | server/pkg/pawnshop/validator_test.go:17-79 | construction succeeds with the profit rule and fails with a nil rule; the chain passes (2,1) and fails (2,3) |
| Scenarios.EmptyChainAccepts | server/pkg/pawnshop/validator.go:40-47 | a validator with no rules accepts every offer |
| Scenarios.CountingHandler | server/pkg/pawnshop/pawnshop_test.go:22-58 | stand-in for the test's mock handler (its package is not part of this model): each call adds one to the call count and accepts with value 1 |
| Scenarios.ShopVectors | server/pkg/pawnshop/pawnshop_test.go:22-58 | a valid offer reaches the handler once and returns its answer; an invalid one is rejected with zero handler calls |
| Scenarios.ServerVectors | server/pkg/server/server_test.go:29-106 | size 0 is refused; on two slots PAWN 5 with demand -2 gets ACCEPT 1; an unsupported code, UNSUPPORTED among them, gets REJECT |
| Scenarios.EndToEndStep1 | endtoend_tests/endtoend_test.go:38-44 | (7,1) on five fresh slots gets ACCEPT 1 and the cache moves to slot 1 |
| Scenarios.EndToEndStep2 | endtoend_tests/endtoend_test.go:46-53 | (5,3) gets REJECT with the store unchanged |
| Scenarios.EndToEndStep3 | endtoend_tests/endtoend_test.go:55-61 | (4,1) gets ACCEPT 1 and the cache moves to slot 2 |
| Scenarios.EndToEndStep4 | endtoend_tests/endtoend_test.go:63-70 | (25,8) gets REJECT with the store unchanged |
| Scenarios.EndToEnd | endtoend_tests/endtoend_test.go:17-70 | through the server, the four offers get ACCEPT 1, REJECT, ACCEPT 1, REJECT and leave [7, 4, 1, 1, 1] |

## Left out

- Connection handling in `server/pkg/server/server.go` is not modelled: `Start`, `Stop`, `IsRunning`, `acceptConnections`, `handleConnections`, `handleConnection` and `rejectOffer`. It is TCP, goroutines, channels and graceful drain. `isRunning` is only a field that stays false.
- JSON encoding and decoding are not modelled, nor the 128-byte read buffer and the `omitempty` rendering of a zero value. The server test case at `server/pkg/server/server_test.go:41-50` is a malformed-request case and belongs here, not to the profit rule.
- The inventory's `sync.Mutex` is not modelled. Each exchange is one atomic step on an immutable value.
- Logging is not modelled. That includes the `String()` calls made only for log lines, which the pawnshop tests count on their mock.
- Inventory.IsProfitable: the `math.MaxInt` sentinel is replaced by a "no slot yet" index of -1. Integers are unbounded, so Go's 64-bit overflow is not modelled.
- Inventory.NewInventory: a negative size, for which Go's `make` panics, is excluded by taking a natural number.
- Server.NewPawnShopServer: the branch for `NewPawnShop` failing is left out. That constructor cannot fail here, because its only rule is present.
- PawnShop.NewPawnShop: modelled as infallible, building its chain through `NewValidator`. The source binds `newValidator`'s two results to one variable, and some callers expect an error result. Neither mismatch is reproduced.
- The generated `mocks` package is not part of this model. `Scenarios.CountingHandler` stands in for it.
- `client/`, `server/cmd/pawnshop/main.go` and `client/cmd/client/main.go` are not modelled. They are flag parsing, signals and dialing.
