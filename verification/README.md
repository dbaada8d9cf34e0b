# A verified model of the payment core

This project models the payment core of FileCoin Retrieval (`github.com/wcgcyx/fcr`) in Dafny and proves what it
promises: payment channels with reservations and surcharges, the protocol by which the two ends of a channel stay in
step over an unreliable network, the tree of locks that everything is guarded by, the transactional store underneath,
the store of channel states and the routine that feeds it, the route store, and the frames exchanged between nodes.

`dafny verify dfyconfig.toml` checks the whole project.

## How it is built

| files | what they model |
|---|---|
| `Arithmetic`, `Meter` | the surcharge arithmetic of a reservation (`paymgr/utils.go`) |
| `ChannelLedger`, `LedgerInvariant` | the ledger of one outbound channel as a value, its invariant, what a reservation is good for |
| `OutboundChannel`, `InboundChannel` | the same operations in place, as classes whose methods are proved against the ledger |
| `Protocol` | sender and recipient of one channel over a network that loses, delays, repeats and reorders |
| `ReservationRuns` | what becomes of one reservation over whole runs of the protocol |
| `ActiveChannels` | the map of active outbound channels in place, in step with the lock tree and the direct links |
| `Route` | prices and payments along a whole route of reservations |
| `ReserveRace` | `Reserve` at all channels to a recipient at once, as interleaved steps |
| `LockTree`, `LockNodes` | the tree of lock nodes, and its updates in place |
| `LockSystem`, `LockProgress`, `LockWaiting`, `LockMisuse` | concurrent use of the tree, one lock operation at a time: exclusion, when calls return, who waits for whom, and what breaks exclusion |
| `TreeStore`, `Transactions` | the tree of entries in a flat key space, and the store and its transactions in place |
| `StateStore`, `StateSync` | nonce-ordered upserts through a queue, and the routine that synchronises cache and store |
| `RouteStore` | the route store of one currency |
| `Frames` | the frame codec and what goes over the stream |
| `Wrappers` | a value that may be missing |
| `Joining` | joining and splitting strings at a separator, used for the keys of both stores |

An operation that the source carries out in place is a method with the source's branches and loops, proved equal to a
function on values (or to a statement about every key). What the operations promise together is proved about those
functions. Concurrency is modelled as a state machine whose events interleave freely; the theorems quantify over every
sequence of events.

## What is assumed of the surroundings

* A voucher is an abstract value, and a voucher verifies exactly if the sender has issued it. The balance found on
  chain never falls, and is at least what was redeemed when the channel was added.
* The network may deliver any issued voucher at any time, any number of times, or never. The sender commits a pending
  voucher only on an acknowledgement of that voucher, and the recipient acknowledges only what it has committed. A loss
  report that verifies is one that the recipient has given: its latest voucher. (A recipient that hands out an older or
  uncommitted voucher as its latest is not covered.)
* The database commits a transaction as a whole or not at all, refuses everything on a transaction that has been
  committed or discarded, and stored values decode to what was encoded.
* A read lock and a write lock exclude each other as usual; the lock type of `github.com/viney-shih/go-lock` is not part of
  this model. In which order waiting callers are granted a lock is left open: exclusion, and that nothing leaks, hold for
  every order, and who waits for whom is given both for a lock that is granted whenever it is free and for one whose
  readers queue behind a waiting writer.
* Time is a parameter. Context ends, timeouts and I/O failures are events or parameters that may occur at any point.

## Where the code and its comments or its callers disagree

The model follows the code; each of these has a lemma or a contract that says exactly when the promise holds.

* `locking/locknode.go:148` says that holding `Lock(path)` is enough for `Remove(path)`. It is enough only when the
  lock fell back on a node above the path (`LockMisuse.RemoveOwnBelowLock`); from every other reachable state the
  removal lets a second caller in while the lock is still held (`LockMisuse.RemoveOwnBreaksExclusion`). Removing under
  the parent's write lock, as `paymgr` does, is safe over all interleavings.
* `paymgr/types.go:49` says that `remain` is at least the petty amount and surcharge paid. That holds exactly while the
  cost of what has been paid is at most half the cost of the whole reservation (`LedgerInvariant.RemainCoversPaidIff`):
  reserving three and paying two breaks it (`LedgerInvariant.RemainNeedNotCoverPaid`). What the code keeps is `remain`
  equal to the reserved amount minus both.
* A proxy that serves for free in front of one that charges quotes a positive price over a zero period, which the next
  node upstream refuses (`paymgr/paymentmgr_impl.go:498-506` against line 413). A route can be reserved hop by hop
  exactly if free serving happens only at its end (`Route.QuotableIff`).
* `Put` at a path that has children forgets them, and `Delete` is not recursive: both keep the tree of entries exactly
  at paths without children (`TreeStore.PutKeepsTree`, `TreeStore.DeleteKeepsTree`). A `Put` that is refused half way
  leaves its transaction changed (`Transactions.Transaction.Put`).
* The overflow test of the state nonce is one-sided (`paychstore/paychstore_impl.go:244-257`): upserts converge in every
  order exactly if no nonce below 100 is to be stored beside one within 100 of the greatest (`StateStore.ConvergesIff`).
  What the test is there for it does, up to 100 changes in between (`StateStore.AheadIsNotStaleIff`).
* `trimRoute` accepts an empty route, and the caller then reads its first address: adding or removing a route crashes
  exactly if the route is empty, or none of its two or more addresses is within the max hop
  (`RouteStore.RouteStore.AddRoute`). A route with "-" in an address is filed under keys that lead elsewhere: a stored
  route stays filed well exactly if its addresses contain none (`RouteStore.AddedFiledWellIff`).
* Adding a channel writes maps under `Lock(channel)`. They are all guarded exactly if the peer is in the map or has no
  lock node (`ActiveChannels.AddIsGuardedIff`). After a peer's last channel has been retired and the peer cleaned away,
  its lock node is still there, and the next channel added for it writes the currency's map
  (`paymgr/paymentmgr_impl.go:1270-1273`) under a read lock of the currency (`ActiveChannels.CleanedPeerIsUnguarded`).
* A channel that has become active between the two checks of `AddOutboundChannel` makes it release its lock twice
  (`paymgr/paymentmgr_impl.go:1262`, `ActiveChannels.ActiveChannels.Add`). If another caller has taken the lock in
  between, the second release lets a third one in (`LockMisuse.SecondReleaseBreaksExclusion`).
* `Reserve`, `Pay` and `Receive` ask for a channel's lock while they hold the read lock of its peer, and so read-lock the
  nodes down to the peer again. With a lock that is granted whenever it is free no circle of waiting callers comes of it
  (`LockWaiting.NoNestedCircularWait`). With one whose readers queue behind a waiting writer there is a circle, until a
  context ends, exactly while such a call queues behind a writer for a node it is called under
  (`LockWaiting.QueueingCircleIff`, `LockWaiting.QueueingCircleHappens`).
* `ListRoutesFrom` returns without releasing its read lock exactly if its context has ended when it is to yield an existing
  direct link (`routestore/routestore_impl.go:699-703`, `RouteStore.RouteStore.ListRoutesFrom`).
* Committing a deletion below a path that has lost its lock node crashes after the database has committed, as after the
  deletion of a path with children (`Transactions.OrphanDeletionCrashes`); that happens exactly if the run is not one
  that `TreeStore.Removable` allows (`Transactions.Store.Commit`).
* Lengths of fields are written and compared in 16 bits: decoding undoes encoding exactly for the lengths that survive
  this (`Frames.RoundTripIff`), which every message that fits the stream limit does.

## Model

| member | source | states |
|---|---|---|
| `Meter.AtTotal` | paymgr/utils.go:39-101 | the meter keeps every unit of gross: petty and surcharge add up to it |
| `Meter.TicksShowAt` | paymgr/utils.go:39-101 | after any gross amount the periodic closed form shows what a meter shows that counts single units, surcharge of a period first and then its petty amount |
| `Meter.MeteredIffShown` | paymgr/utils.go:39-101 | the totals reachable from (0,0) are exactly those the unit-by-unit meter shows |
| `Meter.AtClosedForm` | paymgr/utils.go:74-98 | the totals in terms of whole big periods and the rest of the gross, with the source's own division |
| `Meter.FillSurcharge` | paymgr/utils.go:42-58 | the first phase tops up the started period's surcharge and loses nothing, also from totals no meter shows |
| `Meter.FillPeriod` | paymgr/utils.go:59-73 | the second phase fills the petty amount that the surcharge so far has bought, to the end of the period |
| `Meter.FillBigPeriods` | paymgr/utils.go:74-99 | whole big periods and the last, started one lead to what the meter shows for the total |
| `Meter.CalculatePettyAmountToReceive` | paymgr/utils.go:30-107 | the four phases book exactly the gross received, and from any reachable totals give what the meter shows after it |
| `Meter.SurchargeClosedForm` | paymgr/utils.go:125-129 | a surcharge for every started period is the source's rounded-up quotient times ppp |
| `Meter.CalculateGrossAmountToPay` | paymgr/utils.go:114-138 | the payer's new totals owe ppp for every started period, and the gross is what they grow by |
| `Meter.AtMono` | paymgr/utils.go:39-101 | more gross never credits less petty or less surcharge |
| `Meter.CostIsLeast` | paymgr/paymentmgr_impl.go:417-430 | the gross set aside for a petty amount is the least for which the payee credits it: neither a unit too much nor too little |
| `Meter.CostMono` | paymgr/paymentmgr_impl.go:674-679 | petty amounts are ordered as their costs are, so the cover check compares petty amounts |
| `Meter.PayReceiveOnce` | paymgr/utils.go:30-138 | one payment between equal totals: the payee recovers exactly the petty amount meant and both totals stay equal |
| `Meter.PayReceiveInverse` | paymgr/utils.go:30-138 | the same along every run of payments at one price |
| `Meter.SplitReceive` | paymgr/utils.go:30-107 | splitting a gross amount in any way credits the same, and what one unit-by-unit meter would |
| `Meter.ShownSurchargeCovers` | paymgr/utils.go:42-58 | the surcharge received is never below what is due on the petty amount received |
| `Meter.DearerPrice` | paymgr/paymentmgr_impl.go:502-506 | a higher ppp over a period no longer costs at least as much surcharge, for any petty amounts in order |
| `ChannelLedger.SumLiveDead` | paymgr/utils.go:146-176 | what is released and what stays reserved add up to what was reserved |
| `ChannelLedger.CalibrateEarns` | paymgr/paymentmgr_impl.go:502-506 | what a proxy asks upstream earns it what it serves for on top of what it pays downstream, for every petty amount, and exactly that if the next hop is free or the periods are equal |
| `ChannelLedger.CalibrateIsLeast` | paymgr/paymentmgr_impl.go:502-506 | between two priced hops no price with a lower ppp would earn that, and with this ppp exactly the periods that are no longer do |
| `LedgerInvariant.BackedIsUnique` | paymgr/types.go:37-57 | how much petty a reservation was made for is determined by what remains of it |
| `LedgerInvariant.ChargeIsExact` | paymgr/paymentmgr_impl.go:741-762 | one payment is covered exactly if the petty paid stays within the reservation, and leaves nothing exactly if it reaches it |
| `LedgerInvariant.ReservationIsExact` | paymgr/paymentmgr_impl.go:741-762 | however a reservation is split into payments, for the node itself or for others, they are covered exactly if their sum stays within it, and use it up exactly if it reaches it |
| `LedgerInvariant.RemainCoversPaidIff` | paymgr/types.go:49-50 | what remains covers what has been paid exactly while that has cost at most half of the whole |
| `LedgerInvariant.RemainNeedNotCoverPaid` | paymgr/types.go:49-50 | a reservation of three with two paid, reached by reserving, paying and committing, for which it does not |
| `LedgerInvariant.NothingLeft` | paymgr/paymentmgr_impl.go:751-754 | a used-up reservation covers no further payment |
| `LedgerInvariant.ReleaseKeepsSound` | paymgr/utils.go:161-176 | expiry keeps the ledger invariant and only lowers the reserved amount |
| `LedgerInvariant.FreshExpires` | paymgr/utils.go:146-155 | an unused reservation expires exactly after its expiration, a used one exactly when it has been left alone for longer than its inactivity |
| `LedgerInvariant.ReleaseGivesBack` | paymgr/utils.go:161-176 | an expired reservation goes and all that remains of it is available again; one that has not expired stays as it is with its amount set aside |
| `LedgerInvariant.ReleaseLater` | paymgr/utils.go:161-176 | the later expired reservations are released, the more is available |
| `LedgerInvariant.NothingExpired` | paymgr/routines.go:249-262 | a sound ledger has something to give back exactly if a reservation has expired; otherwise releasing changes nothing |
| `LedgerInvariant.ReserveKeepsSound` | paymgr/paymentmgr_impl.go:542-584 | reserving keeps it: the reserved amount is the sum of what remains, ids stay below the nonce, redeemed and reserved stay within the balance, a recorded loss excludes reservations |
| `LedgerInvariant.ReserveIsExact` | paymgr/paymentmgr_impl.go:549-584 | a reservation takes exactly its amount from what is available under an id never used before, and fails only for want of money or after a loss |
| `LedgerInvariant.PayFits` | paymgr/paymentmgr_impl.go:689-771 | a payment that goes through is pending on a sound ledger whose state has not changed yet |
| `LedgerInvariant.PayIff` | paymgr/paymentmgr_impl.go:689-762 | Pay succeeds exactly with no loss recorded, on a live reservation that covers it, with a signed voucher; when it fails nothing but expired reservations has changed |
| `LedgerInvariant.PayCommitIsExact` | paymgr/paymentmgr_impl.go:689-783 | from lock to commit, for the node itself or for others: a mismatch is refused, otherwise success exactly if covered; money moves from reserved to redeemed with nothing gained or lost, the reservation goes exactly when used up and from then on expires by inactivity, no other live one is touched |
| `LedgerInvariant.CommitKeepsSound` | paymgr/paymentmgr_impl.go:772-783 | committing keeps the ledger invariant |
| `LedgerInvariant.RevertKeepsSound` | paymgr/paymentmgr_impl.go:784-800 | reverting keeps it, with or without a recorded loss |
| `LedgerInvariant.RevertThenBear` | paymgr/paymentmgr_impl.go:784-800 | reverting with a voucher and bearing the loss leads to that voucher, with no reservations left, exactly if it verifies, is for this channel and lane, and is ahead; any other voucher changes nothing |
| `LedgerInvariant.BearKeepsSound` | paymgr/paymentmgr_impl.go:1495-1503 | bearing a loss keeps it and frees all but what the loss voucher redeems |
| `LedgerInvariant.UpdateKeepsSoundIff` | paymgr/paymentmgr_impl.go:1431-1432 | taking over a balance keeps the ledger invariant exactly if it covers what is redeemed, reserved and recorded as lost |
| `LedgerInvariant.UpdateIsExact` | paymgr/paymentmgr_impl.go:1424-1433 | the balance found on chain is taken over whole: all of it but what is reserved and redeemed is available, and nothing else changes |
| `LedgerInvariant.VoucherWithinBalance` | paymgr/paymentmgr_impl.go:763-771 | every voucher is one nonce ahead, redeems more than before, and stays within the balance |
| `OutboundChannels.GrossAmountRequired` | paymgr/paymentmgr_impl.go:417-430 | the gross to set aside is the cost of the petty amount |
| `OutboundChannels.CheckReserve` | paymgr/paymentmgr_impl.go:387-430 | refused exactly for a past expiration, a petty amount that is not positive, or a price with one zero part |
| `OutboundChannels.InboundPrice` | paymgr/paymentmgr_impl.go:497-510 | the inbound price of an attempt: whenever it can be reserved with, its surcharge covers the served and the outbound surcharge on every petty amount; and exactly when the node upstream could not reserve with it |
| `OutboundChannels.ChargeReservation` | paymgr/paymentmgr_impl.go:741-757 | match check, cover check and new totals are those of the ledger |
| `OutboundChannels.OutboundChannel.constructor` | paymgr/paymentmgr_impl.go:1238-1254 | a channel found on chain starts with a sound, empty ledger |
| `OutboundChannels.OutboundChannel.GetExpiredAmount` | paymgr/utils.go:146-155 | the loop returns the sum of what remains of the expired reservations |
| `OutboundChannels.OutboundChannel.ReleaseExpiredAmount` | paymgr/utils.go:161-176 | exactly the expired reservations go, and their amount is given back |
| `OutboundChannels.OutboundChannel.NeedsCleaning` | paymgr/routines.go:244-249 | the check under the read lock finds something exactly if a reservation has expired; otherwise a release would change nothing |
| `OutboundChannels.OutboundChannel.CleanReservations` | paymgr/routines.go:244-265 | a visit of the cleaning routine releases what has expired by the time it has the write lock, and skips nothing that had expired when it looked unless it does not get the lock |
| `OutboundChannels.OutboundChannel.CanReserve` | paymgr/paymentmgr_impl.go:517-533 | the provisional check foresees exactly what the check after a release would say |
| `OutboundChannels.OutboundChannel.Reserve` | paymgr/paymentmgr_impl.go:542-584 | one attempt in place does what the ledger's Reserve does, also when it fails after releasing |
| `OutboundChannels.OutboundChannel.CanPay` | paymgr/paymentmgr_impl.go:611-681 | the provisional check passes exactly if the payment under the write lock would |
| `OutboundChannels.OutboundChannel.Pay` | paymgr/paymentmgr_impl.go:689-801 | the payment in place: the ledger's errors, or its voucher with commit and revert still to come |
| `OutboundChannels.OutboundChannel.Commit` | paymgr/paymentmgr_impl.go:772-783 | the commit closure installs the provisional state, amount and reservation |
| `OutboundChannels.OutboundChannel.Revert` | paymgr/paymentmgr_impl.go:784-800 | the revert closure records a loss exactly if the voucher proves it, and then drops every reservation |
| `OutboundChannels.OutboundChannel.UpdateBalance` | paymgr/paymentmgr_impl.go:1424-1433 | any balance found on chain, higher or lower, becomes the balance, with a new state nonce, and exactly which of them keep the channel sound |
| `OutboundChannels.OutboundChannel.BearNetworkLoss` | paymgr/paymentmgr_impl.go:1492-1503 | the loss voucher becomes the state's voucher, nonce and redeemed amount |
| `InboundChannels.AcceptedIff` | paymgr/paymentmgr_impl.go:883-921 | the locked half accepts exactly vouchers on lane 0 with a new nonce, not below what is recorded, and within the recorded balance or the one on chain; exactly an old nonce is reported |
| `InboundChannels.ProbeForesees` | paymgr/paymentmgr_impl.go:838-875 | the check under the read lock passes exactly if the locked half would, for the same gross, and also reports a redeemed amount that falls |
| `InboundChannels.RecordedBalanceServes` | paymgr/paymentmgr_impl.go:894-909 | once a voucher has made the recipient look at the chain, every later one up to the balance found there is accepted whatever is found on chain then |
| `InboundChannels.InboundChannel.CanAccept` | paymgr/paymentmgr_impl.go:838-875 | the check in place |
| `InboundChannels.InboundChannel.Accept` | paymgr/paymentmgr_impl.go:883-934 | the locked half of Receive: a report, a refusal, or a provisional state with the balance on chain if the voucher has made the recipient look there, and what gross the voucher carries |
| `InboundChannels.InboundChannel.Commit` | paymgr/paymentmgr_impl.go:927-930 | committing installs the provisional state; redeemed never falls and the nonce grows |
| `InboundChannels.InboundChannel.Revert` | paymgr/paymentmgr_impl.go:931-933 | reverting leaves the recorded state as it was |
| `Protocol.TwoPartyAgreement` | paymgr/paymentmgr_impl.go:763-801 | over every run the recipient is in step or exactly one voucher ahead, the records agree whenever the nonces do, and no voucher ever signed exceeds the balance on chain |
| `Protocol.BearingRestoresAgreement` | paymgr/paymentmgr_impl.go:1492-1503 | in every reachable state with a recorded loss, bearing it makes the two records agree exactly |
| `Protocol.LostAckIsRecovered` | paymgr/paymentmgr_impl.go:849-853 | from every reachable state that lost step while a payment is pending, answering the pending voucher, reverting with the answer and bearing the loss lead back to agreement |
| `Protocol.NewVouchersAreAccepted` | paymgr/paymentmgr_impl.go:884-934 | any voucher of the sender that is new to the recipient is accepted in whatever order they arrive, for exactly what it adds to the sender's record |
| `Protocol.PaymentCompletes` | paymgr/paymentmgr_impl.go:763-934 | over a network that loses nothing, from every reachable state in agreement with nothing pending: a payment that the ledger lets through, received, committed and acknowledged, leads to agreement with its gross amount moved on both sides |
| `Protocol.TopUpArrives` | paymgr/paymentmgr_impl.go:1424-1433 | in every reachable state with nothing pending, updating after a top-up makes all of the balance on chain but what is reserved and redeemed available, at least the top-up, on a sound ledger |
| `Protocol.RecipientNeverLoses` | paymgr/paymentmgr_impl.go:922-930 | what the recipient has recorded is never taken back |
| `ReservationRuns.StepHolds` | paymgr/paymentmgr_impl.go:689-802 | every event on the channel or the network leaves a reservation backed by what was reserved less what has been committed, also while a payment on it is pending |
| `ReservationRuns.StepStays` | paymgr/paymentmgr_impl.go:689-800 | a reservation goes in an event only by expiring, with a recorded loss, or when its whole amount is committed |
| `ReservationRuns.NothingBeyondReserved` | paymgr/paymentmgr_impl.go:750-783 | over every run, with any other activity: what is committed on a reservation never exceeds what was reserved, and exactly that much is used up while it is there; until expiry or loss it is there exactly as long as something is left |
| `ReservationRuns.CoveredUpToReserved` | paymgr/paymentmgr_impl.go:689-762 | over every run without expiry or loss, for payments of the node itself and for others: in the state reached a payment goes through exactly if what arrives matches it and all together stay within what was reserved |
| `ReservationRuns.GoodForAmountReserved` | paymgr/paymentmgr_impl.go:542-584 | all of this from the reserving on, for exactly the amount the reservation was made for |
| `ReservationRuns.UnusedReservationLasts` | paymgr/utils.go:146-176 | over every run in which it is not used, a reservation is there unchanged with its whole amount set aside up to its expiration, unless a loss is recorded, and after that it is released with its whole amount available again |
| `ReservationRuns.TimeReleases` | paymgr/routines.go:244-265 | however long the clock goes on, a cleaning then finds it expired exactly if that has gone past its expiration |
| `ReservationRuns.PaymentIsEven` | paymgr/paymentmgr_impl.go:741-762 | in every state of the channel, a payment for others that goes through, also the last one, leaves petty received and paid equal, and the surcharge received covers the one paid and the one served for |
| `ReservationRuns.ProxyEarnsOverRuns` | paymgr/paymentmgr_impl.go:497-510 | from the reserving on, over every run of its channel in which a reservation serves others only, with any other activity in between: the proxy has earned the surcharge it serves for on all that went through it |
| `Protocol.StepInv` | paymgr/paymentmgr_impl.go:689-934 | every event on either side keeps the joint invariant |
| `Route.QuotableIff` | paymgr/paymentmgr_impl.go:497-510 | every inbound price along a route can be reserved with exactly if free serving happens only at its end |
| `Route.ProxyNeverLoses` | paymgr/paymentmgr_impl.go:741-756 | a payment driven by a received one passes on exactly the petty amount it brought, and the surcharge received still covers the surcharge paid |
| `Route.ProxyRunNeverLoses` | paymgr/paymentmgr_impl.go:741-756 | the same along every sequence of payments on a reservation, whatever gross amounts arrive |
| `Route.EvenEarns` | paymgr/paymentmgr_impl.go:741-756 | whatever gross amounts have arrived on a reservation of a proxy, equal petty totals mean that it has earned the surcharge it serves for |
| `Route.RoutePayment` | paymgr/paymentmgr_impl.go:665-679 | a covered payment passes every hop's match check and cover check, every hop receives exactly what the hop before it pays, and the last pays the recipient |
| `Route.RouteOverdrawn` | paymgr/paymentmgr_impl.go:751-754 | a payment beyond the reservations stops at the first hop |
| `Route.RouteDelivers` | paymgr/paymentmgr_impl.go:741-762 | over every run the recipient gets exactly the petty amounts, and a run is refused exactly when its sum exceeds the reservations |
| `Route.RouteConserves` | paymgr/paymentmgr_impl.go:741-756 | what the payer has paid is what the recipient got plus what the proxies keep, and every proxy is even-handed |
| `Route.RouteEarns` | paymgr/paymentmgr_impl.go:497-510 | on a route that has been paid along, every proxy keeps at least the surcharge it serves for, and exactly that where the periods are equal |
| `Route.ReserveRouteInStep` | paymgr/paymentmgr_impl.go:565-582 | hop-by-hop reserving leaves reservations in which each inbound price is the outbound price of the hop before |
| `Route.ReservedRouteDelivers` | paymgr/paymentmgr_impl.go:402-430 | from reserving to paying: on a quotable route of any length exactly the runs within the reserved petty amount arrive, in full |
| `Route.ReservedRouteEarns` | paymgr/paymentmgr_impl.go:497-584 | from reserving to earning: after every run within the reserved amount the same holds at every proxy, and all the payer has spent is the petty amounts and what the proxies keep |
| `ReserveRace.StepInv` | paymgr/paymentmgr_impl.go:511-584 | every step of an attempt keeps all ledgers sound, and a channel that is cleared can bear the reservation until it is claimed |
| `ReserveRace.StepEffect` | paymgr/paymentmgr_impl.go:542-584 | what one step makes of a ledger that nobody else changes in it: a release, the wanted reservation at the first claim, or nothing |
| `ReserveRace.AtMostOneCharge` | paymgr/paymentmgr_impl.go:555-595 | over all interleavings, also with other activity: the ledgers gain at most one reservation from the attempts, exactly the one returned, and a call fails only if no channel was ever cleared |
| `ReserveRace.RaceOutcome` | paymgr/paymentmgr_impl.go:542-595 | a channel that nobody else touches, whatever happens to others: the winner is what one reservation on it alone makes of it, any other has lost nothing but expired reservations |
| `ReserveRace.CallSucceeds` | paymgr/paymentmgr_impl.go:511-595 | over all interleavings of attempts that nobody disturbs, when all are over: the call succeeds if any channel could have made the reservation when it began, and only on one that can when it ends |
| `LockTree.NodeInsert` | locking/locknode.go:133-145 | inserting keeps every node where it was and adds exactly the prefixes of the path |
| `LockTree.NodePrune` | locking/locknode.go:151-162 | removing cuts off exactly the paths that lead through the child |
| `LockNodes.Nodes.Create` | locking/locknode.go:37-48 | creating a chain of nodes from the bottom is growing it from the top |
| `LockNodes.Nodes.Insert` | locking/locknode.go:133-145 | the recursion over nodes in place grows the tree by the missing part of the path |
| `LockNodes.Nodes.Remove` | locking/locknode.go:151-162 | the recursion over nodes in place cuts the last key off its parent, and crashes exactly if there is no such parent |
| `LockSystem.StepInv` | locking/locknode.go:55-162 | every lock operation, insertion and removal under the parent's lock keeps what each caller knows of the tree, and keeps write locks exclusive |
| `LockSystem.LockExclusion` | locking/locknode.go:55-127 | over all interleavings, while one caller holds Lock(p) no other holds any lock on p or an extension of p, nor Lock on a prefix of p, whether or not p is in the tree |
| `LockWaiting.WaitsDeeper` | locking/locknode.go:55-127 | a caller waits strictly deeper than anything it holds, for one that holds more |
| `LockWaiting.BlockRaises` | locking/locknode.go:55-127 | whoever blocks a caller, by a lock it has or by waiting to write the node that the caller wants to read, ranks strictly above it |
| `LockWaiting.NoCircularWait` | locking/locknode.go:55-127 | over all interleavings no callers that hold one lock each wait for each other in a circle, whether or not readers queue behind waiting writers |
| `LockWaiting.NextStays` | paymgr/paymentmgr_impl.go:619-689 | while a caller keeps a read lock on p, a node p/key that is in the tree stays in it |
| `LockWaiting.NestedStep` | paymgr/paymentmgr_impl.go:619-689 | every event keeps inner calls, any number under one lock, below the lock they are made under, none of them falling back on a node locked outside |
| `LockWaiting.NoNestedCircularWait` | paymgr/paymentmgr_impl.go:432-542 | over all interleavings of goroutines that so ask for channel locks under the read lock of the peer, also several at once while their parent waits for them: with a lock granted whenever it is free there is no circle of callers that wait for a lock or for the calls made under theirs |
| `LockWaiting.QueueingCircleIff` | paymgr/paymentmgr_impl.go:432-542 | with a lock whose readers queue behind a waiting writer there is one exactly while an inner call queues for a node that the lock it is made under holds |
| `LockWaiting.QueueingCircleHappens` | paymgr/paymentmgr_impl.go:619-638 | four events that lead to one |
| `LockWaiting.FallingBackOnOuterWaitsForItself` | locking/locknode.go:101-108 | what the nesting has to avoid: an inner Lock that falls back on a node its own goroutine has read-locked waits for itself |
| `LockSystem.NothingLeaks` | locking/locknode.go:66-127 | a call that fails, while it waits or on looking again, and a caller that releases, give back exactly what they took, the deepest first, whatever others do in between |
| `LockSystem.NothingElseChanges` | locking/locknode.go:66-127 | alone, giving back leaves everything else as it was |
| `LockSystem.LockReturnsAt` | locking/locknode.go:89-127 | a Lock that returns holds the path's own node for writing, or the deepest one above it; `LockProgress.ReturnsIffWayIsFree` says when it returns |
| `LockProgress.LookedIff` | locking/locknode.go:66-127 | what a call does at a node, at every phase: on to the child if there is one, giving up exactly if a child has appeared after the switch to the write lock, returning exactly if there is none and the lock it needs is held |
| `LockProgress.WaitsIffBlocked` | locking/locknode.go:55-127 | a call waits exactly while somebody has a lock that keeps it waiting; readers do not |
| `LockProgress.LevelNode` | locking/locknode.go:55-127 | another caller has a lock on a node of a path exactly if its own path and depth say so |
| `LockProgress.Descends` | locking/locknode.go:66-127 | from any node on its way, a call gets down to the deepest node of its path exactly if the rest of the way is free |
| `LockProgress.ReturnsIffWayIsFree` | locking/locknode.go:55-127 | from every reachable state, for every path and both modes, a new call returns exactly if nobody has a write lock on the existing part of its path nor, for Lock, any lock on the deepest node there; otherwise it is still waiting, and nothing else has changed |
| `LockProgress.ReturnsAlone` | locking/locknode.go:55-127 | without other callers every RLock and Lock returns, also for a path that is not in the tree |
| `LockSystem.LookupCannotMiss` | paymgr/paymentmgr_impl.go:637-689 | while a caller keeps a read lock on p, an entry below p that it has seen stays, so that the second look under the write lock cannot miss it |
| `LockSystem.EntriesRun` | paymgr/paymentmgr_impl.go:1288-1353 | over every run in which only entries without entries below them are removed, every entry keeps its lock node |
| `ActiveChannels.AddGuarded` | paymgr/paymentmgr_impl.go:1267-1288 | adding a channel keeps the active channels exactly those with a lock node of their own |
| `ActiveChannels.RetireGuarded` | paymgr/paymentmgr_impl.go:1350-1353 | so does retiring one, whose lock node is found under its peer's |
| `ActiveChannels.AddIsInsert` | paymgr/paymentmgr_impl.go:1274-1288 | adding a channel is an insertion under Lock(channel) in the system of concurrent callers |
| `ActiveChannels.RetireIsRemove` | paymgr/paymentmgr_impl.go:1329-1353 | and retiring one a removal under Lock(peer) |
| `ActiveChannels.InnerLockStaysCallable` | paymgr/paymentmgr_impl.go:432-542 | over every run in which a goroutine keeps the read lock of a peer, an active channel that it has seen stays active with its lock node, so that it may ask for the channel's write lock |
| `ActiveChannels.LinkedWith` | paymgr/paymentmgr_impl.go:1289-1293 | adding a channel keeps direct links to exactly the peers with one exactly if the link is made or there already |
| `ActiveChannels.LinkedWithout` | paymgr/paymentmgr_impl.go:1354-1359 | retiring one does exactly if the link is removed or the peer has another channel |
| `ActiveChannels.AddIsGuardedIff` | paymgr/paymentmgr_impl.go:1255-1274 | every map that adding a channel writes is guarded by a write lock exactly if the peer is in the map or has no lock node |
| `ActiveChannels.CleanedPeerIsUnguarded` | paymgr/routines.go:407-412 | which fails after the peer's last channel was retired and the peer cleaned away |
| `ActiveChannels.InnerLockFindsChannel` | paymgr/paymentmgr_impl.go:535-542 | under its peer's read lock, asking for an active channel's lock never falls back on a node above it |
| `ActiveChannels.InnerLockMayBeCalled` | paymgr/paymentmgr_impl.go:432-542 | so any goroutine working under the peer's read lock may make that call |
| `ActiveChannels.ActiveChannels.Add` | paymgr/paymentmgr_impl.go:1230-1295 | exactly a channel that was not active is entered, with its lock node; otherwise the lock is released twice; the links stay in step exactly if the direct link was made or there |
| `ActiveChannels.ActiveChannels.Retire` | paymgr/paymentmgr_impl.go:1329-1361 | exactly an active channel is taken out, with its lock node, and its state handed over; the links stay in step exactly if the last channel's link was removed |
| `ActiveChannels.ActiveChannels.CollectEmpty` | paymgr/routines.go:381-399 | the peers without channels, found under read locks, except those whose lock is refused |
| `ActiveChannels.ActiveChannels.RemoveEmpty` | paymgr/routines.go:400-415 | of whatever was collected earlier exactly the peers that have no channels now are dropped, and no channel is lost |
| `LockMisuse.RemoveOwnBelowLock` | locking/locknode.go:147-162 | removing one's own path is safe when its lock fell back on a node above it |
| `LockMisuse.RemoveOwnBreaksExclusion` | locking/locknode.go:147-162 | from every other state, holding Lock(path) and removing path lets a second caller hold path at the same time |
| `LockMisuse.SecondReleaseBreaksExclusion` | paymgr/paymentmgr_impl.go:1235-1264 | running a release function twice, when another caller has locked the path in between, lets a third one lock it too |
| `TreeStore.GetDSKey` | mdlstore/utils.go:30-44 | the loop yields the cleaned path joined by separators, or an error exactly if a component contains one |
| `TreeStore.PathKeysDistinct` | mdlstore/utils.go:30-44 | a path of plain components shares its key with no other plain path |
| `TreeStore.KeyIsShared` | mdlstore/utils.go:30-44 | two paths share their key exactly if cleaning makes the same path of both, and cleaning leaves exactly the plain ones alone |
| `TreeStore.CleanStep` | mdlstore/utils.go:30-44 | in a key empty and "." components stand for nothing, ".." takes back the one before it, and every other is kept |
| `TreeStore.PutKeepsTree` | mdlstore/mdlockablestore_impl.go:254-339 | Put keeps the tree of entries exactly at paths without children |
| `TreeStore.DeleteKeepsTree` | mdlstore/mdlockablestore_impl.go:346-386 | so does Delete |
| `TreeStore.PutReads` | mdlstore/mdlockablestore_impl.go:254-339 | after Put the value is read at the path and everywhere else what was read before, with the next component listed along the path |
| `TreeStore.DeleteReads` | mdlstore/mdlockablestore_impl.go:346-386 | after Delete nothing is read at the path and everywhere else the data read before; only the parent has lost that child |
| `TreeStore.PutOverwrites` | mdlstore/mdlockablestore_impl.go:318-335 | of two values put at a path the last one counts, and nothing else of the first is left |
| `TreeStore.DeleteUndoesPut` | mdlstore/mdlockablestore_impl.go:254-386 | deleting a path that was new when it was put under a stored parent restores the entries exactly |
| `TreeStore.OpKeepsAgreement` | mdlstore/mdlockablestore_impl.go:336-399 | an operation at a path without children keeps the agreement of stored keys and lock tree |
| `TreeStore.ReopenAgrees` | mdlstore/mdlockablestore_impl.go:82-122 | after reopening, in any order of the keys, the plain paths in the lock tree are exactly the stored ones |
| `Transactions.CarefulRunAgrees` | mdlstore/mdlockablestore_impl.go:254-399 | along every run of operations at childless paths the entries stay a tree that the replayed lock tree agrees with |
| `Transactions.Transaction.Has` | mdlstore/mdlockablestore_impl.go:214-220 | whether a path is stored under its cleaned key, or an error for a component with a separator |
| `Transactions.Transaction.Get` | mdlstore/mdlockablestore_impl.go:175-189 | the data stored under the cleaned key of any path but the empty one |
| `Transactions.Transaction.GetChildren` | mdlstore/mdlockablestore_impl.go:196-207 | the children stored under the cleaned key |
| `Transactions.Transaction.MakePrefix` | mdlstore/mdlockablestore_impl.go:265-297 | one round lists a missing prefix in its parent and gives it an empty entry, under cleaned keys, and changes nothing off the path |
| `Transactions.Transaction.MakePrefixes` | mdlstore/mdlockablestore_impl.go:258-300 | the rounds change nothing off the path; on a tree, at a plain path, every proper prefix then exists and is listed, and stopped half way they still leave a tree |
| `Transactions.Transaction.PutLast` | mdlstore/mdlockablestore_impl.go:301-339 | the path is listed in its parent and written, or listed only if its last component is refused |
| `Transactions.Transaction.Put` | mdlstore/mdlockablestore_impl.go:254-339 | on any entries, success leaves the value under the cleaned key and nothing changes off the path; on a tree, at a plain path, success exactly for separator-free paths below the root, with the whole new view, and a refused Put breaks the view exactly if only its last component was refused |
| `Transactions.Transaction.Delete` | mdlstore/mdlockablestore_impl.go:346-386 | success exactly for separator-free paths whose parent's key is stored, with the whole new view; on a tree a refused Delete changes nothing |
| `Transactions.DeleteAtPlain` | mdlstore/mdlockablestore_impl.go:346-386 | at a plain path that view is the one without the path |
| `Transactions.RunCommits` | mdlstore/mdlockablestore_impl.go:393-397 | the commit functions, run in order on the nodes in place, replay the transaction on the lock tree, and crash exactly if one removes a path whose parent has no lock node |
| `Transactions.CarefulIsRemovable` | mdlstore/mdlockablestore_impl.go:391-399 | a run at childless paths never does |
| `Transactions.OrphanDeletionCrashes` | mdlstore/mdlockablestore_impl.go:346-399 | deleting a path with children and then one below them is accepted twice, and its commit crashes |
| `Transactions.Store.constructor` | mdlstore/mdlockablestore_impl.go:68-122 | opening creates the root entry if it is missing and inserts every key into a new lock tree, which agrees with the entries if they are a tree |
| `Transactions.Store.Commit` | mdlstore/mdlockablestore_impl.go:391-399 | a transaction takes effect at most once, and not after it was discarded; a commit makes its view the stored entries and replays it on the locks, a failed one changes nothing; agreement is kept by transactions at childless paths |
| `Transactions.CarryOut` | mdlstore/mdlockablestore_impl.go:254-386 | a put or delete at a childless path keeps the transaction's view the run of its commit list |
| `Transactions.Transact` | mdlstore/mdlockablestore_impl.go:162-399 | opening, any such operations and committing leave the entries as the operations make them, and entries and locks in agreement |
| `StateStore.PaychStore.Upsert` | paychstore/paychstore_impl.go:179-337 | the retry loop stores the state, discards it as old, or gives up without a change, each exactly when it should |
| `StateStore.PaychStore.ProcessQueue` | paychstore/paychstore_impl.go:711-727 | the queue is worked off front to back |
| `StateStore.ProcessedIsDrained` | paychstore/paychstore_impl.go:205-325 | operations that get through once within their attempts all take effect |
| `StateStore.SucceedsIff` | paychstore/paychstore_impl.go:205-325 | an attempt is done with an old state as soon as it can read the stored one, and with any other exactly if it also gets the lock and can write |
| `StateStore.AheadIsNotStaleIff` | paychstore/paychstore_impl.go:242-259 | a state k changes ahead is never taken for an old one, at any 64-bit nonce and across the wrap, exactly if k is at most 100 |
| `StateStore.DrainedIsCandidate` | paychstore/paychstore_impl.go:239-325 | what is stored in the end is one of the upserted states or the one before |
| `StateStore.NewestIsStored` | paychstore/paychstore_impl.go:239-325 | without such a pair of nonces the state stored in the end has the greatest nonce of all |
| `StateStore.ConvergesIff` | paychstore/paychstore_impl.go:242-259 | all orders leave the newest state exactly if no nonce below 100 is upserted beside one within 100 of the greatest |
| `StateStore.WrapLosesNewest` | paychstore/paychstore_impl.go:244-257 | otherwise an order that loses the newest state |
| `StateStore.UpsertsConverge` | paychstore/paychstore_impl.go:179-337 | any two orders of the same upserts leave the same store, for all channels at once |
| `StateSync.ChangesAreNumbered` | paymgr/paymentmgr_impl.go:768-795 | every operation on either side that changes a channel state raises its state nonce by one |
| `StateSync.EqualNonceEqualState` | paymgr/paymentmgr_impl.go:923-930 | along every run equal state nonces mean equal states |
| `StateSync.StoreIsPast` | paymgr/routines.go:78-100 | over every run the store holds a state the cache has or had, and never disagrees with it at equal nonces |
| `StateSync.StoreAdvances` | paychstore/paychstore_impl.go:242-259 | the store never goes back to an earlier state |
| `StateSync.SyncCompletes` | paymgr/routines.go:78-100 | from every reachable state: a visit, a queue worked off in any order and no further change make store and cache equal |
| `StateSync.PushIsQuietIff` | paymgr/routines.go:78-100 | in every reachable state a visit that can read the store does nothing exactly if the cached state is stored |
| `StateSync.SyncPass` | paymgr/routines.go:50-110 | a pass over all channels pushes exactly the cached states whose nonce is not in the store |
| `StateSync.NotPushedIff` | paymgr/routines.go:155-165 | a pass leaves out a channel exactly if it can read that the stored state is the cached one |
| `StateSync.PassSettles` | paymgr/routines.go:155-177 | together with older upserts still in the queue, in any order, a pass makes every stored state the cached one |
| `RouteStore.TrimRoute` | routestore/utils.go:28-49 | exactly the routes pass that are not of length one and, once cut, have no cycle and avoid this node |
| `RouteStore.CutIsLongest` | routestore/utils.go:34-37 | trimming keeps exactly the leading parts of a route within the max hop |
| `RouteStore.AcyclicIff` | routestore/utils.go:38-48 | a route passes the cycle check exactly if this node and its addresses are all different |
| `RouteStore.Cleanup` | routestore/utils.go:56-71 | exactly the routes that have not expired stay, and no destination is left empty |
| `RouteStore.AddedLivesUntil` | routestore/utils.go:56-71 | a route that was added lives exactly for the time it was given |
| `RouteStore.AddPrefixes` | routestore/routestore_impl.go:392-400 | the loop enters exactly the prefixes of at least two addresses, each under its own destination and key |
| `RouteStore.FiledRoutes` | routestore/routestore_impl.go:620-636 | every stored key splits into a good route that starts and ends where it is filed |
| `RouteStore.RouteStore.AddDirectLink` | routestore/routestore_impl.go:130-216 | a link to every address but this node's own; an existing one keeps its routes |
| `RouteStore.RouteStore.RemoveDirectLink` | routestore/routestore_impl.go:224-302 | the link goes with all its routes |
| `RouteStore.AddedFiledWellIff` | routestore/routestore_impl.go:392-400 | entering a route keeps every stored route filed well exactly if its addresses contain no "-" |
| `RouteStore.RouteStore.AddRoute` | routestore/routestore_impl.go:309-417 | crashes exactly on an empty trimmed route, is refused exactly for a bad route or a missing link, and otherwise holds exactly the prefixes of the trimmed route anew; keeps the store well filed exactly for "-"-free addresses |
| `RouteStore.RouteStore.RemoveRoute` | routestore/routestore_impl.go:424-550 | removes exactly the route under the key of the trimmed one, which is that route exactly if its addresses contain no "-", and not its prefixes |
| `RouteStore.RouteStore.ListRoutesTo` | routestore/routestore_impl.go:557-642 | exactly the live stored routes to the destination, all of them good |
| `RouteStore.RouteStore.ListRoutesFrom` | routestore/routestore_impl.go:649-734 | the direct link itself and exactly the live stored routes through it; the read lock is released once, or never if the context has ended at an existing link |
| `Frames.TakeSized` | comms/comms.go:176-186 | a field comes back exactly if its length and the truncated length of the rest allow it |
| `Frames.SizeOrder` | comms/comms.go:57-58 | lengths are written with the high byte first |
| `Frames.ShortWraps` | comms/comms.go:57-58 | a length loses whole multiples of 2^16 |
| `Frames.PutBack` | comms/comms.go:176-186 | whatever is taken off the front can be put back byte for byte |
| `Frames.RoundTripIff` | comms/comms.go:154-209 | decoding undoes encoding exactly for frames whose lengths survive 16 bits |
| `Frames.DecodedReencodes` | comms/comms.go:154-209 | every input that decodes re-encodes to the same bytes |
| `Frames.OpeningRoundTripIff` | comms/comms.go:52-147 | the same exact condition for first requests, over all their fields |
| `Frames.OpeningReencodes` | comms/comms.go:52-147 | every first request that decodes re-encodes to the same bytes |
| `Frames.AnswerRoundTripIff` | comms/comms.go:296-350 | the same exact condition for responses |
| `Frames.AnswerReencodesIff` | comms/comms.go:304-316 | a response re-encodes to the same bytes exactly if its status byte is one that is sent |
| `Frames.OpeningOnTheWire` | comms/comms.go:52-74 | a first request byte by byte |
| `Frames.AnswerOnTheWire` | comms/comms.go:296-350 | a success and a failure response byte by byte |
| `Frames.WrittenIff` | io/io.go:27-52 | up to 40 KiB can be written, and what is read off could have been |
| `Frames.MessageArrives` | comms/comms.go:264-291 | every follow-up message within the stream limit arrives with the same fields |
| `Frames.OpeningArrives` | comms/comms.go:372-386 | so does every first request, behind the requester's secret |
| `Frames.AnswerArrives` | comms/comms.go:450-477 | so does every response |
| `Frames.DecodeMessage` | comms/comms.go:173-209 | the decoding with a moving cursor is the function, and never reads out of range on any input |
| `Frames.Request.Encode` | comms/comms.go:52-74 | the fields are written in this order |
| `Frames.Request.Decode` | comms/comms.go:81-147 | sets the fields of the decoded request, and those it got to when a later one fails |

## Left out

- Streams, peer discovery, data transfer, JSON-RPC, command line, configuration and daemon: plumbing around the core.
- Signatures, address derivation and chain calls: see the assumptions; the signature over a frame is one of its fields.
- `payproto` and the pay-offer handlers are not part of this model; what they make of vouchers, acknowledgements and reports are the events of `Protocol`.
- `ActiveChannels.ActiveChannels.Add`: the outbound half only, each operation under its write lock as one step, which its guard makes it (see above for when it does not); subscribers and the loading of channels at start are left out.
- Removal and later re-addition of the same channel address, and an upsert that arrives after a removal: convergence and synchronisation exclude them; `PaychStore.Remove` is not modelled.
- Nonces of channels and reservations are unbounded naturals; only the wrap-around test of the state nonce is modelled.
- `Protocol.TwoPartyAgreement`: rests on an honest loss report, as listed under the assumptions; a verifying voucher that the recipient has not recorded would be taken for a loss by the code.
- `OutboundChannels.OutboundChannel.Reserve`: the offer that a reservation carries along is dropped, and serving status and policy of a channel are reasons for an attempt to quit.
- `LockSystem.LockExclusion`: locks and the tree are values here, one lock operation to a step; `peermgr`, which removes a peer under its own lock, is not part of this model.
- `LockProgress.ReturnsIffWayIsFree`: the other callers hold still while the call is made, and a free lock is granted; `LockWaiting` says what waiting among several callers comes to.
- `ReserveRace.CallSucceeds`: no policy or inspection ends an attempt, and nobody else changes the channels meanwhile; without that assumption stand `ReserveRace.AtMostOneCharge` and `ReserveRace.RaceOutcome`.
- `LockWaiting.NoNestedCircularWait`: a goroutine that makes a call while it holds a write lock is not covered.
- `Transactions.Transaction.Put`: what it makes of the path and its prefixes is stated in full for a tree of entries and plain paths, without empty, "." or ".." components. A read that fails in the database is not modelled.
- `OutboundChannels.OutboundChannel.CleanReservations`: nobody else acts on the channel between the look and the write lock; `NeedsCleaning` and `ReleaseExpiredAmount` are the two halves by themselves.
- `Transactions.Store.Commit`: conflicts between concurrent transactions are left to the database, which may refuse to commit; queries are left out.
- `StateSync.SyncPass`: the goroutines of a pass are one loop over the channels, as they do not touch each other's.
- `RouteStore.RouteStore.AddRoute`: the switch from the read lock to the write lock is one step. Results of listing are sets: the order on the channel is open. A max hop of 2^63 or more is not modelled.
- `Frames.MessageArrives`: one message in the stream at a time; what a buffered reader may take in beyond the message is not modelled.
- `LedgerInvariant.UpdateBalanceKeepsSound`: covers a balance that does not fall; `LedgerInvariant.UpdateKeepsSoundIff` says which others do.
- Crash recovery between two passes, the files of reservations written at shutdown, wall-clock scheduling and logging.
- `settlemgr`, `renewmgr`, `reservmgr`, `substore`, `offermgr`, `cservmgr`, `pservmgr`, `mpstore`, `piecemgr` and `retmgr`.
