# TradingSystem matching core in Dafny

This project models the order-matching core of TradingSystem, an
in-memory limit order book written in C#, and proves properties of that
model.

The model follows the core's own entities:

- **Order.** An order (`Orders.Order`) is a shared mutable object.
  - Its identity fields are constant.
  - `Fill` and `Cancel` change its filled quantity and status in place.
  - `OrderState` is a value snapshot of that mutable part.
- **Trade.** A trade (`Trades.Trade`) is an immutable value.
- **Factory.** The factory (`OrderFactory`) validates its arguments in the
  source's order. It either returns a new `New` order or names the
  argument it rejects.
- **OrderBook.** An order book (`OrderBooks.OrderBook`) holds one instrument's
  bids and asks.
  - Each side is a sequence of price levels, each level a FIFO queue of orders.
  - Bids are kept strictly by descending price and asks by ascending price,
    as the two sorted dictionaries of the source are.
- **MatchingEngine.** The matching engine (`Engine.MatchingEngine`) keeps a
  dictionary of books keyed by the case-folded instrument id, and the
  ledger of executed trades.
  - `Process` finds or creates the book of the incoming order's instrument
    and sweeps the opposing side with it (`MatchBuyOrder` or
    `MatchSellOrder`).
  - It then appends the trades to the ledger and rests any remainder on the
    order's own side.
  - `CancelOrder`, `GetOrder`, `GetOrderBookSnapshot` and `GetAllTrades` are
    the engine's queries and its one other command.

**How the matching loops are proved.**

- The loops of `MatchBuyOrder` and `MatchSellOrder` are `while` loops over
  the book's objects.
- Each is proved to compute `Matching.Sweep`, a pure function on the value
  view of the opposing side (`BookViews.View`).
- The rules of the source are lemmas about `Sweep`:
  - price-time priority;
  - the stop conditions;
  - conservation of quantity;
  - the fields of every trade;
  - preservation of the book invariant.

**The book invariant.** The engine's invariant (`MatchingEngine.Valid`,
built from `BookViews.SideOk`) says that:

- every book sits under the key of its instrument;
- each side is strictly ranked and has no empty level;
- every resting order sits on its own side, at its own price, in the book
  of its instrument, at most once;
- every resting order still has quantity open and is `New` or
  `PartiallyFilled`.

## Model

| member | source | states |
|---|---|---|
| Orders.Order.Create | src/Domain/Entities/Order.cs:41-62 | every identity field is the argument given; the order starts with nothing filled and status `New` |
| Orders.Order.Fill | src/Domain/Entities/Order.cs:22-33 | filled quantity grows by exactly the amount; status becomes `Filled` when filled reaches quantity and `PartiallyFilled` otherwise; the new state is `AfterFill` of the old |
| Orders.Order.Cancel | src/Domain/Entities/Order.cs:35-38 | status becomes `Canceled` whatever it was; the filled quantity is kept |
| Orders.AfterFill | src/Domain/Entities/Order.cs:22-33 | the value `Fill` leaves behind; `Order.Fill`, `FillAccounting` and `FillWithinRemaining` state its meaning |
| Orders.FillAccounting | src/Domain/Entities/Order.cs:22-33 | a fill keeps the order, adds to filled and takes the same from the open quantity; the status is `Filled` exactly when nothing stays open, and is never `New` or `Canceled` afterwards |
| Orders.FillWithinRemaining | src/Domain/Entities/Order.cs:22-33 | a positive fill of at most the open quantity keeps filled within quantity, fills the order exactly when it takes all that was open, and leaves it `PartiallyFilled` exactly when it is still live |
| Trades.Trade.Create | src/Domain/Entities/Trade.cs:19-37 | the trade carries the given buyer, seller, instrument, price, quantity, time and id |
| OrderFactory.LimitOrderError | src/Domain/Factories/OrderFactory.cs:16-21 | no error iff the instrument is not blank and price and quantity are positive; a blank instrument is reported first, a non-positive price before a non-positive quantity |
| OrderFactory.CreateLimitOrder | src/Domain/Factories/OrderFactory.cs:9-33 | fails exactly when `LimitOrderError` names an error, with that error; otherwise a fresh `Limit` order with the given instrument, side, price, quantity, id and time, nothing filled, status `New` |
| OrderFactory.MarketOrderError | src/Domain/Factories/OrderFactory.cs:40-43 | no error iff the instrument is not blank and the quantity is positive; a blank instrument is reported first; the price is never checked |
| OrderFactory.CreateMarketOrder | src/Domain/Factories/OrderFactory.cs:35-55 | fails exactly when `MarketOrderError` names an error; otherwise a fresh `Market` order at price 0 with the given instrument, side, quantity, id and time, nothing filled, status `New` |
| Text.IsWhiteSpace | src/Domain/Factories/OrderFactory.cs:16 | `char.IsWhiteSpace`: the Unicode White_Space code points |
| Text.IsNullOrWhiteSpace | src/Domain/Services/MatchingEngine.cs:145 | `string.IsNullOrWhiteSpace`: null, or every character is white space (so also the empty string); the factories' error lemmas and `GetAllTrades` state its use |
| Basics.Min | src/Domain/Services/MatchingEngine.cs:184 | the result is at most both arguments and is one of them |
| Text.Key | src/Domain/Services/MatchingEngine.cs:12-13 | the dictionary key has the id's length and is the id upper-cased character by character |
| OrderBooks.OrderBook.constructor | src/Domain/Services/MatchingEngine.cs:299-308 | a new book for the instrument has no bids and no asks |
| OrderBooks.OrderBook.HasBids | src/Domain/Services/MatchingEngine.cs:310 | the bid dictionary has an entry; `HasOrders` states it holds exactly when some order rests on the bid side |
| OrderBooks.OrderBook.HasAsks | src/Domain/Services/MatchingEngine.cs:311 | the ask dictionary has an entry; `HasOrders` states it holds exactly when some order rests on the ask side |
| BookViews.HasOrders | src/Domain/Services/MatchingEngine.cs:310-311 | on sides that keep the invariant, `HasBids` holds iff some order rests among the bids and `HasAsks` iff some order rests among the asks |
| OrderBooks.OrderBook.GetBestBidPrice | src/Domain/Services/MatchingEngine.cs:313 | the price is that of a bid level and, on a ranked side, no bid level is higher |
| OrderBooks.OrderBook.GetBestAskPrice | src/Domain/Services/MatchingEngine.cs:314 | the price is that of an ask level and, on a ranked side, no ask level is lower |
| OrderBooks.OrderBook.AddOrder | src/Domain/Services/MatchingEngine.cs:316-334 | the order's side becomes `Insert` of the order at its price; the other side is unchanged |
| OrderBooks.LevelAt | src/Domain/Services/MatchingEngine.cs:175 | reading a side as the sorted dictionary it stands for: the list under a price, empty when there is none; `LevelAtIndex` and `LevelAtFind` state its meaning |
| OrderBooks.Insert | src/Domain/Services/MatchingEngine.cs:316-334 | `AddOrder` on one side; `InsertAppendsAtBack` and `InsertPrices` state its meaning |
| OrderBooks.InsertAppendsAtBack | src/Domain/Services/MatchingEngine.cs:316-334 | inserting keeps the side ranked; read as a dictionary, the list at the order's price gains the order at its back, a new level is created when the price had none, and every other price's list is unchanged |
| OrderBooks.InsertPrices | src/Domain/Services/MatchingEngine.cs:316-334 | inserting adds no price but the order's own |
| OrderBooks.IndexOfPrice | src/Domain/Services/MatchingEngine.cs:274 | `TryGetValue` on a side: the index found holds the price, and none is found exactly when no level has it |
| OrderBooks.LevelAtIndex | src/Domain/Services/MatchingEngine.cs:175-176 | on a ranked side, indexing the dictionary by a level's price yields that level's queue (`book.Asks[bestAskPrice]`) |
| OrderBooks.LevelAtFind | src/Domain/Services/MatchingEngine.cs:274 | on a ranked side, the dictionary lookup agrees with `IndexOfPrice`: the level's queue when found, nothing otherwise |
| OrderBooks.RemoveAt | src/Domain/Services/MatchingEngine.cs:201-209 | removing one entry of a level and the level once empty; `RemoveAtSpec` states its meaning |
| OrderBooks.RemoveFirst | src/Domain/Services/MatchingEngine.cs:278 | `List.Remove`: the first occurrence goes; `RemoveFirstAt` states its meaning |
| OrderBooks.RemoveOrder | src/Domain/Services/MatchingEngine.cs:273-284 | `RemoveOrderFromBook` on one side; `RemoveOrderIsRemoveAt`, `RemoveOrderMissing` and `RemoveResting` state its meaning |
| OrderBooks.RemoveAtSpec | src/Domain/Services/MatchingEngine.cs:201-209 | removing entry `j` of level `i` keeps the side ranked; read as a dictionary, only that price's list changes, losing exactly that entry (the price disappears with an emptied list) |
| OrderBooks.RemoveOrderIsRemoveAt | src/Domain/Services/MatchingEngine.cs:273-284 | removing a resting order by reference, where it is first in its level at its own price, is removing its position |
| OrderBooks.RemoveOrderMissing | src/Domain/Services/MatchingEngine.cs:273-284 | removing an order that is in no level changes nothing |
| OrderBooks.RemoveFirstAt | src/Domain/Services/MatchingEngine.cs:278 | `List.Remove` of an element whose first occurrence is at `j` drops exactly entry `j` |
| BookViews.SideOkInsert | src/Domain/Services/MatchingEngine.cs:49-55 | resting a live order that is not already there, at its own price on its own side, keeps the side invariant |
| BookViews.SideOkRemoveAt | src/Domain/Services/MatchingEngine.cs:201-209 | taking one entry off a side keeps the side invariant |
| BookViews.RemoveResting | src/Domain/Services/MatchingEngine.cs:268-285 | on a side that keeps the invariant, `RemoveOrder` of the order at a position is removing that position; exactly that order leaves the side; the view loses exactly that entry and keeps the invariant |
| Matching.Crosses | src/Domain/Services/MatchingEngine.cs:169-170 | the negation of the loop's `break` test: a market order always crosses, a limit buy at or above the best ask, a limit sell at or below the best bid; `SweepStops` states its use |
| Matching.Rests | src/Domain/Services/MatchingEngine.cs:50-52 | the condition for resting the order after matching; `Process` and `Rest` state its use and `MarketRemainderOnlyOnEmptySide` when a market order meets it |
| Matching.Sweep | src/Domain/Services/MatchingEngine.cs:166-209 | the matching loop on values, as the executions it performs, the side and the taker it leaves; the `Sweep…` lemmas below state its meaning and both loops are proved to compute it |
| Matching.SweepStops | src/Domain/Services/MatchingEngine.cs:166-173 | the loop ends only when the taker has nothing open, the opposing side is empty, or a limit taker's price no longer crosses the best level; every execution was at a crossing price; a market taker stops only when filled or when the side is exhausted |
| Matching.MarketRemainderOnlyOnEmptySide | src/Domain/Services/MatchingEngine.cs:50-55 | a market order is left to rest only when it has emptied the opposing side |
| Matching.SweepConserves | src/Domain/Services/MatchingEngine.cs:182-199 | every round matches a positive quantity; the taker is filled by exactly the total matched, never more than it had open; the side loses exactly that much open quantity; the taker is `Filled` iff nothing of it stays open (unchanged when nothing matched) |
| Matching.SweepFollowsPriority | src/Domain/Services/MatchingEngine.cs:166-209 | price-time priority: the executions fill the resting orders in order (best price first, first in first out within a price), each by the smaller open quantity at its level's price; all but the last are filled and removed, and what is left is the untouched rest |
| Matching.SweepBestPriceFirst | src/Domain/Services/MatchingEngine.cs:166-176 | execution prices never get better for the taker: asks are taken in ascending and bids in descending price |
| Matching.SweepMakersOpposite | src/Domain/Services/MatchingEngine.cs:175-176 | every resting order filled is on the side opposite the taker |
| Matching.SweepKeepsSideOk | src/Domain/Services/MatchingEngine.cs:197-209 | the opposing side still keeps the book invariant after the loop (filled orders and emptied levels removed, partly filled ones still open) |
| Matching.SweepTrades | src/Domain/Services/MatchingEngine.cs:186-195 | the trades of the loop name the buyer and the seller from the right orders, carry the matched quantity (positive) at the resting level's price, which crosses, carry the taker's instrument and the time, and have consecutive ids |
| Matching.Settle | src/Domain/Services/MatchingEngine.cs:197-209 | the resting side after its best order is filled to a new state: the order leaves once `Filled` (its level too when emptied), otherwise it stays at the front in its new state; `SettleDropsOrder`, `SettleUpdates`, `SettleFlatten` and `StepKeepsSideOk` state its meaning |
| Matching.TradeFor | src/Domain/Services/MatchingEngine.cs:187-194 | the `Trade.Create` call of one round; `TradeForFaithful` states its meaning (for a buy taker the taker is the buyer, for a sell taker the seller, as lines 240-247) |
| Matching.TradesFor | src/Domain/Services/MatchingEngine.cs:186-195 | one trade per execution, in order, with consecutive trade ids; `TradesForFaithful` and `SweepTrades` state its meaning |
| Matching.TradeForFaithful | src/Domain/Services/MatchingEngine.cs:187-194 | one trade: for a buy taker the taker is the buyer and the resting order the seller, the reverse for a sell taker; price, quantity, instrument, time and id as given |
| Matching.TradesForFaithful | src/Domain/Services/MatchingEngine.cs:240-247 | a run of crossing, positive executions against opposite-side orders yields faithful trades, one per execution |
| Matching.StepKeepsSideOk | src/Domain/Services/MatchingEngine.cs:182-209 | one round: the matched quantity is positive and within both open quantities, the resting order is filled iff it gives all it had, and the side keeps the invariant |
| Matching.SweepStep | src/Domain/Services/MatchingEngine.cs:166-209 | while the loop runs, its result is one execution followed by the loop over the settled side and filled taker |
| Matching.SweepResumes | src/Domain/Services/MatchingEngine.cs:166-209 | the loop invariant of both matching loops survives one round |
| Matching.ResumesStop | src/Domain/Services/MatchingEngine.cs:166-173 | when the loop's condition fails, the rounds done so far are the whole sweep |
| Queries.FirstWithId | src/Domain/Services/MatchingEngine.cs:75 | `FirstOrDefault`: the result has the id and no earlier order in the list has it; nothing is found only when no order has it |
| Queries.FindInSide | src/Domain/Services/MatchingEngine.cs:73-84 | the order found rests on that side and has the id; nothing is found exactly when no order on the side has it |
| Queries.Aggregate | src/Domain/Services/MatchingEngine.cs:118-130 | one entry per level, in the side's order, with the level's price and the open quantity of its orders |
| Queries.Open | src/Domain/Services/MatchingEngine.cs:122 | the open quantity summed over a level's orders equals `OpenVolume` of their states |
| Queries.OpenVolumePositive | src/Domain/Services/MatchingEngine.cs:122 | a non-empty level of open orders has a positive open quantity |
| Queries.ListedOk | src/Domain/Services/MatchingEngine.cs:117-130 | a listing of a side that keeps the invariant has strictly better prices first, each price once, and only positive quantities |
| Queries.SameInstrument | src/Domain/Services/MatchingEngine.cs:154 | ids are equal ignoring case when their folded keys are equal; `FilterTrades` states its use |
| Queries.FilterTrades | src/Domain/Services/MatchingEngine.cs:153-155 | exactly the trades whose instrument equals the id ignoring case, never more than there were |
| Queries.FilterAppend | src/Domain/Services/MatchingEngine.cs:153-155 | filtering keeps execution order: filtering a concatenation is concatenating the filters |
| Queries.LedgerFilterExtends | src/Domain/Services/MatchingEngine.cs:153-155 | appending trades of one instrument to the ledger appends exactly those trades to that instrument's filtered ledger |
| Engine.ProcessedTradesListed | src/Domain/Services/MatchingEngine.cs:143-157 | after a `Process` call, `GetAllTrades` for the order's instrument is its earlier answer followed by exactly the new trades |
| Engine.MatchingEngine.constructor | src/Domain/Services/MatchingEngine.cs:12-20 | a new engine has no books and an empty ledger and is valid |
| Engine.MatchingEngine.Process | src/Domain/Services/MatchingEngine.cs:26-58 | keeps the engine valid; the instrument's book is the old one or a new one for it, no other book entry changes, and only that book, its orders and the incoming order are modified; the opposing side ends as the sweep leaves it, the order in the sweep's state; the order's own side gains it at its price exactly when it `Rests` and is otherwise unchanged; the trades are those of the sweep and the ledger is the old one followed by them; every order that left an existing book is filled, status `Filled` |
| Engine.MatchingEngine.BookFor | src/Domain/Services/MatchingEngine.cs:29-34 | the book of the instrument, created empty under its key only when there was none; the engine stays valid, no side view changes and no order starts resting |
| Engine.MatchingEngine.Match | src/Domain/Services/MatchingEngine.cs:36-44 | the sweep of the book by the order: the opposing side ends as `Sweep` says, the order takes the sweep's state and never loses filled quantity, its own side is untouched, every order that left the book is filled (`LeftFilled`: quantity all filled, status `Filled`), the engine stays valid |
| Engine.MatchingEngine.MatchOnBook | src/Domain/Services/MatchingEngine.cs:37-44 | dispatch on the order's side to the matching loop, with the same outcome, the book keeping its invariant and gaining no order; every order that left the book is filled, status `Filled` |
| Engine.MatchingEngine.Record | src/Domain/Services/MatchingEngine.cs:46-47 | the ledger is the old one followed by the new trades, in order; nothing else changes |
| Engine.MatchingEngine.Rest | src/Domain/Services/MatchingEngine.cs:49-55 | the order's own side gains it at its price exactly when it has quantity open and is neither canceled nor filled; the opposing side is untouched; the engine stays valid |
| Engine.MatchingEngine.RestOnBook | src/Domain/Services/MatchingEngine.cs:49-55 | the same on one book, which keeps its invariant |
| Engine.MatchingEngine.RestOnSide | src/Domain/Services/MatchingEngine.cs:49-55 | the same on one side, which keeps its invariant; the other side is not touched |
| Engine.MatchingEngine.MatchBuyOrder | src/Domain/Services/MatchingEngine.cs:161-213 | the loop computes `Sweep` of the buy order over the asks: the asks and the order end as the sweep says, the trades are its trades in order, the bids are untouched, the asks keep the invariant and gain no order, and every ask that left the book is filled, status `Filled` |
| Engine.MatchingEngine.MatchSellOrder | src/Domain/Services/MatchingEngine.cs:215-266 | the mirror image over the bids, every bid that left the book filled, status `Filled` |
| Engine.MatchingEngine.FillFront | src/Domain/Services/MatchingEngine.cs:197-209 | one round's fills: the taker is filled by the amount, the first order of the best level too (its new state is `AfterFill` of its old one), and the side is settled (that order removed with its emptied level once filled); the other side is untouched, no order joins the side and every order that left it is filled, status `Filled` |
| Engine.MatchingEngine.FillBest | src/Domain/Services/MatchingEngine.cs:182-209 | one round on the best level: the execution names the first order there, its price and the matched quantity; the loop invariant (`Sweeping`: the side keeps its invariant, gains no order, every order gone is filled, and the rounds so far resume into the sweep) survives it; the taker's side is untouched; the side shrinks or the taker's open quantity does |
| Engine.MatchingEngine.MatchFront | src/Domain/Services/MatchingEngine.cs:175-209 | one loop iteration: the trade is the one `TradeFor` gives for the round's execution, with the id given; `Sweeping` survives; the taker's side is untouched; the side shrinks or the taker's open quantity does |
| Engine.MatchingEngine.DropFront | src/Domain/Services/MatchingEngine.cs:201-209 | the first order of the best level, which is filled, leaves the side, and its level with it once empty; every order that has left the side is still filled, status `Filled` |
| Engine.MatchingEngine.GetOrder | src/Domain/Services/MatchingEngine.cs:65-87 | an order found rests in some book and has the id; nothing is found exactly when no resting order has the id |
| Engine.MatchingEngine.CancelOrder | src/Domain/Services/MatchingEngine.cs:92-105 | when no resting order has the id nothing changes; otherwise a resting order with the id is canceled, keeping its filled quantity, and leaves the resting set, while every other resting order is unchanged and the engine stays valid |
| Engine.MatchingEngine.CancelResting | src/Domain/Services/MatchingEngine.cs:97-104 | the order's side loses exactly its entry (`RemoveAt` of its position), the other side is unchanged, it is canceled and no longer rests, every other resting order is unchanged |
| Engine.MatchingEngine.CancelAt | src/Domain/Services/MatchingEngine.cs:100-104 | the same once the order's position is known |
| Engine.MatchingEngine.CancelInBook | src/Domain/Services/MatchingEngine.cs:100-104 | within the order's book: canceled, removed from its position, the book keeps its invariant and loses exactly that order |
| Engine.MatchingEngine.RemoveOrderFromBook | src/Domain/Services/MatchingEngine.cs:268-285 | in the book of the order's instrument, if any, the order's side becomes `RemoveOrder` of it and the other side is unchanged |
| Engine.MatchingEngine.Locate | src/Domain/Services/MatchingEngine.cs:97-98 | a resting order of a valid engine is in the book of its own instrument, on its own side, and live, so the status check of `CancelOrder` never returns early |
| Engine.MatchingEngine.OnlyInOwnBook | src/Domain/Services/MatchingEngine.cs:270 | an order rests in no book but its own instrument's |
| Engine.MatchingEngine.GetOrderBookSnapshot | src/Domain/Services/MatchingEngine.cs:110-138 | nothing exactly when the instrument has no book; otherwise the id as passed and, per side in the book's order, each level's price with the open quantity of its orders |
| Engine.MatchingEngine.SnapshotOrdered | src/Domain/Services/MatchingEngine.cs:117-130 | in a valid engine the snapshot's bids have strictly descending and its asks strictly ascending prices, and every listed quantity is positive |
| Engine.MatchingEngine.GetAllTrades | src/Domain/Services/MatchingEngine.cs:143-157 | the whole ledger for a null, empty or blank id; otherwise exactly the ledger's trades of that instrument, compared ignoring case |

## Left out

- Concurrency. The engine has no locks, and the model is sequential.
- Kafka messaging, hosting, the web controllers and the DTOs are not part
  of this model.
- `Guid.NewGuid()` becomes parameters:
  - Order ids are `nat` values passed to the factory.
  - The trades of one `Process` call get ids `tradeIdBase`,
    `tradeIdBase + 1`, and so on.
- `DateTime.UtcNow` becomes a parameter:
  - The factory takes the time as `now`.
  - One `Process` call stamps all its trades with a single `now`. The
    source reads the clock once per trade.
- `decimal` becomes an unbounded `int`: prices and quantities are in fixed
  units. Overflow and fractional rounding of `decimal` are not modelled.
- `StringComparer.OrdinalIgnoreCase` becomes `Text.Key`, which upper-cases
  ASCII letters only. Case folding of other Unicode letters is not modelled.
- A null `instrumentId` passed to the engine is not modelled (the engine's
  methods take a string). The factory and `GetAllTrades` do model null, as
  `None`.
- GetOrder: searches the books in no particular order, standing for the
  dictionary's enumeration order. When two resting orders share an id, which
  one is found is not determined.
- Engine.MatchingEngine.GetOrderBookSnapshot: returns the listing as a value
  computed at the call. The source returns lazily evaluated LINQ sequences
  that read the book when enumerated.
- Engine.MatchingEngine.Process: requires that the incoming order is not
  already resting and that its filled quantity is not negative. This holds
  for every order the factory makes. Resubmitting a resting order is not
  modelled.
- Engine.MatchingEngine.CancelOrder: does not restate which entry leaves
  which side. `CancelResting` states that, and the `modifies` clause of
  `CancelResting` (the order and its own book) says that no other book
  changes.
- Orders.Order.Fill: has no precondition. The source does not check the
  amount, and the engine only passes positive amounts within both open
  quantities (`StepKeepsSideOk`).
- Trade immutability is by construction: `Trade` is a datatype.

## Notes

- An unfilled market order rests at price 0.
  - `CreateMarketOrder` sets the price of every market order to 0
    (src/Domain/Factories/OrderFactory.cs:51).
  - `Process` rests any order that still `Rests` after matching, at its own
    price (src/Domain/Services/MatchingEngine.cs:50-55).
  - `Matching.MarketRemainderOnlyOnEmptySide` shows this happens only
    when the market order emptied the opposing side.
  - A market sell then sits as an ask at 0, which every later limit buy
    crosses. A market buy sits as a bid at 0.
  - The model keeps this behaviour as written.
- The code is looser than one might expect, and the model follows the code:
  - `Fill` sets `PartiallyFilled` whenever filled stays below quantity,
    even for a fill of 0.
  - `Fill` does not reject a fill beyond the open quantity.
  - `Cancel` sets `Canceled` from any status.
  - `CancelOrder` re-checks the status before canceling. Because a resting
    order is always open (`Locate`), that check never returns early.
