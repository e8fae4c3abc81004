# Verified core of the merchant operations platform

This Dafny project models the parts of the platform that decide amounts, identities and
lifecycles: the cart, service charge and tax, the CRC and framing of the PNG writer, retries, the
dead-letter sanitizer, the outbox loop, the database channel listener, and money entry. For each it
proves what the code promises, over every input or every run.

`dafny verify dfyconfig.toml` checks the whole project.

## Modules

| file | module | models |
|---|---|---|
| `line_keys.dfy` | `LineKeys` | `lineKey`: the sorted, joined text that decides which cart lines are one line |
| `cart.dfy` | `Cart` | `addLine`, `setLineQuantity`, `setLineNote`, `removeLine`, and their refinement to an ordered finite map |
| `cart_folds.dfy` | `CartFolds` | adding whole lists of lines |
| `cart_pricing.dfy` | `CartPricing` | `unitPrice`, `isLineComplete`, `viewCart`, `toOrderItems` |
| `charges.dfy` | `Charges` | `divideRounded`, `computeCharges` |
| `rate_text.dfy` | `RateText` | `parseRatePercent`, `formatRatePercent` |
| `crc32.dfy` | `Crc32` | the CRC table and sum of the PNG writer, against the register of sections 3.4 and 15 of RFC 2083 |
| `png.dfy` | `Png` | `chunk`, `solidPng`, and a reader to check them against |
| `retry_schedule.dfy` | `RetrySchedule` | `nextRetryDecision`, `retryDelayMs` |
| `dead_letter.dfy` | `DeadLetter` | `sanitizeDeadLetterContext` and its helpers |
| `outbox_loop.dfy` | `OutboxLoop` | `startOutboxLoop` and `stop`, as steps between awaits |
| `channel_listener.dfy` | `ChannelListener` | `listenToChannel`, as steps of its handlers |
| `money_entry.dfy` | `MoneyEntry` | `formatMoneyMinor` with the value path of `NumericInput` and `MoneyInput` |
| `basics.dfy`, `text.dfy` | `Basics`, `Text` | shared result types, trimming, numerals, padding |

Functions that only compute are modelled as functions. Loops that update variables are methods with
loops, proved equal to a function or to a stated relation: the price and view of a cart, the CRC table
and sum, the PNG buffers written in place, the sanitizer. The loop and the listener are classes whose
handlers update fields; each handler is proved to be one step of a transition function, and the
theorems range over every sequence of steps.

## What is worth knowing before reading

- A cart line's identity is its product, variant, note and the multiset of its modifiers. The key of the
  code stands for exactly that as long as product and variant contain no `|` and the modifier ids are not
  empty and contain neither `|` nor `,`; the UUIDs of the contracts do. `LineKeys.BadIdsCollide` shows that
  nearly every line breaking this shares its key with a different line.
- `addLine` cuts the quantity at 99 only when the line already exists. A fresh line is stored with the
  quantity it came with, so an earlier order's line of up to 999 pieces (`packages/contracts/src/orders.ts:84`)
  that is ordered again stands in the cart uncut. `CartFolds.AddAllCounts` is the exact law for lines of any
  non-negative quantity: held plus asked, cut at 99 unless the identity is new and occurs once.
  `CartFolds.CutAtTheMaximum` says exactly when the plain min(99, sum) is right, `CartFolds.RangeAfterAdding`
  when the cart stays within 1..99.
- Charges taken out of a total that was made by adding them come back exactly, for every rate. In the
  other direction the detour costs up to two minor units for service up to 200% and tax up to 66.66%,
  which covers the 50% cap with room to spare; neither limit can be raised by one basis point
  (`Charges.ReaddingDriftIsSharp`).
- A typed rate accepts a point or a comma. Printing is injective over all rates exactly when the decimal
  mark contains something other than digits.
- Deleting the only digit of an amount in a currency without decimals leaves the field without a value,
  not with zero (`MoneyEntry.DeletingShifts`, with a concrete case in `MoneyEntry.LoneDigitIsLost`).
- A note is cleaned by trimming first and cutting second, so a cut that ends in white space is trimmed
  again the next time (`Cart.CleanNoteFixed`, with a concrete note in `Cart.CutAtSpaceIsNotFixed`).
- The sanitizer's copy never has an entry `__proto__`: assigning to that key sets the prototype. A parsed
  context may hold such an entry, and everything below it is lost (`DeadLetter.ContextKeptExactly`).
- The listener's `close` misses an open connection exactly when, after it came up, the LISTEN query of an
  earlier connection that had already ended still resolved and took its place, and it has fired neither
  "error" nor "end" itself (`ChannelListener.CloseMissesExactly`). Whether a client can resolve a query
  after its "end" is up to the `pg` package, which is not part of this model.
- Bills are proved for menus in which no variant has an empty id: the key of a line spells a missing
  variant as the empty text.

## Model

| member | source | states |
|---|---|---|
| LineKeys.SortSorts | apps/web/src/lib/menu-cart.ts:39 | sorting the modifier ids yields a sorted list with the same ids the same number of times |
| LineKeys.SortedUnique | apps/web/src/lib/menu-cart.ts:39 | that list is the only one, so the order of choosing modifiers cannot show |
| LineKeys.AtMostExactly | apps/web/src/lib/menu-cart.ts:39 | the order of sorting is that of the first code unit in which two texts differ, a beginning before the whole |
| LineKeys.LineKeyExact | apps/web/src/lib/menu-cart.ts:34-42 | two lines have one key exactly when product, variant and note agree and the modifiers are permutations of each other, whatever the note contains and as long as ids keep clear of the separators |
| LineKeys.BadIdsCollide | apps/web/src/lib/menu-cart.ts:35-42 | a line whose ids break that restriction shares its key with a line of another identity, whichever restriction it breaks, unless its only breach is one modifier with commas that no sorted list joins to |
| LineKeys.KeyOfIdent | apps/web/src/lib/menu-cart.ts:35-42 | the key is a function of the line's identity alone |
| Cart.FindLine | apps/web/src/lib/menu-cart.ts:70 | finds the first line with a key, and none only if there is none |
| Cart.FindFrom | apps/web/src/lib/menu-cart.ts:105 | finds the first line with a key other than the target itself, and none only if there is none |
| Cart.AddRefines | apps/web/src/lib/menu-cart.ts:68-77 | adding a line of any quantity is adding to one entry of the map, cut at 99, or appending a new entry as it comes; keys stay distinct |
| Cart.SetQuantityRefines | apps/web/src/lib/menu-cart.ts:79-85 | setting a quantity updates one entry of the map, clamped to 1..99, and no other |
| Cart.SetNoteRefines | apps/web/src/lib/menu-cart.ts:94-114 | setting a note renames one entry in place, or moves its quantity, cut at 99, to the entry it becomes equal to |
| Cart.RemoveRefines | apps/web/src/lib/menu-cart.ts:116-118 | removing deletes one entry and keeps the order of the others |
| Cart.RunRefines | apps/web/src/lib/menu-cart.ts:68-118 | every run of the four operations, whatever quantities are added, keeps keys distinct and is the run of the same operations on ordered finite maps |
| Cart.RunInRange | apps/web/src/lib/menu-cart.ts:68-118 | a run that adds quantities of 1..99 only keeps every quantity of the cart in 1..99 |
| Cart.AddTouchesOneQuantity | apps/web/src/lib/menu-cart.ts:68-77 | adding changes the quantity of a line with the added key and nothing else of any line, or appends the line as it is |
| Cart.SetQuantityTouchesQuantities | apps/web/src/lib/menu-cart.ts:79-85 | the quantity becomes the nearest number from 1 to 99, and nothing else of any line changes |
| Cart.SetNoteTouchesOneLine | apps/web/src/lib/menu-cart.ts:88-114 | the line changes in its note alone, an empty note or variant being left out, or it goes and one quantity is raised |
| Cart.RemoveTakesOneLine | apps/web/src/lib/menu-cart.ts:116-118 | the one line with the key goes, the others stay as they are |
| Cart.CleanNoteExactly | apps/web/src/lib/menu-cart.ts:97 | what is stored of a note is what stands between the white space around it, cut to its first 300 characters |
| Text.SpacesAre | apps/web/src/lib/menu-cart.ts:97 | the white space taken off is exactly the language's, by code points |
| Cart.AddKeepsExactly | apps/web/src/lib/menu-cart.ts:68-77 | adding keeps the cart in range exactly when a fresh quantity is in 1..99 or a grown one is at least 1 |
| Cart.CleanNoteFixed | apps/web/src/lib/menu-cart.ts:97 | cleaning a note again changes nothing exactly when the cut at 300 does not end in white space |
| Cart.CutAtSpaceIsNotFixed | apps/web/src/lib/menu-cart.ts:97 | the exception occurs: a note of 301 characters with a space at position 299 is cleaned further the second time |
| CartFolds.AddAllCounts | apps/web/src/features/self-order/guest-order.ts:43-52 | adding any lines of non-negative quantities to any cart gives each identity what it held plus what is asked, cut at 99 unless it is new and occurs once, and lists new identities by first occurrence |
| CartFolds.CutAtTheMaximum | apps/web/src/features/self-order/guest-order.ts:31-52 | starting from a cart in range, an identity ends up with min(99, held + sum asked) exactly unless it is new, occurs once and is asked for more than 99 |
| CartFolds.RangeAfterAdding | apps/web/src/features/self-order/guest-order.ts:31-52 | a cart in range to which quantities of at least 1 are added stays in 1..99 exactly when no identity is new, occurs once and is asked for more than 99 |
| CartFolds.OneLineSlipsPast | apps/web/src/features/self-order/guest-order.ts:31-52 | the exception occurs: a line of 150 added to an empty cart stands there as 150 |
| CartFolds.AddingOrderIsFree | apps/web/src/lib/menu-cart.ts:68-77 | every reordering of the added lines, of any non-negative quantities, gives the same quantities |
| CartFolds.AddAllOfCart | apps/web/src/lib/menu-cart.ts:68-77 | adding the lines of a cart to an empty one rebuilds it |
| CartPricing.UnitPriceLoop | apps/web/src/lib/menu-cart.ts:44-54 | the nested loops compute the unit price, which the next five rows describe |
| CartPricing.FreeCostsNothing | apps/web/src/lib/menu-cart.ts:44-54 | a product whose prices and deltas are all 0 costs 0, whatever is chosen |
| CartPricing.BaseCounts | apps/web/src/lib/menu-cart.ts:47 | raising the base price raises every unit price by the same amount |
| CartPricing.VariantCounts | apps/web/src/lib/menu-cart.ts:46-47 | raising one variant raises the unit price by as much if it is the first with the line's id, and otherwise not at all |
| CartPricing.OptionCounts | apps/web/src/lib/menu-cart.ts:48-52 | raising one option raises the unit price by as much if its id is chosen, and otherwise not at all |
| CartPricing.ChoiceAddsItsPrice | apps/web/src/lib/menu-cart.ts:45-52 | one more modifier adds exactly what the menu asks for it; choosing it twice adds nothing |
| CartPricing.CompleteExactly | apps/web/src/lib/menu-cart.ts:56-66 | a line is complete exactly when it has one of the product's variants, if there are any, and every group has a permitted number of options chosen |
| CartPricing.SamePrice | apps/web/src/lib/menu-cart.ts:44-66 | price and completeness depend on product, variant and modifier set, not on note, quantity or order |
| CartPricing.ViewCart | apps/web/src/lib/menu-cart.ts:124-153 | the loop shows exactly the sellable lines in cart order, with the totals as sums over the cart |
| CartPricing.ShownLinesAddUp | apps/web/src/lib/menu-cart.ts:129-150 | the shown lines are the sellable ones with name, key and unit price; their totals add up to the total, their quantities to the item count |
| CartPricing.ChoicesInMenuOrder | apps/web/src/lib/menu-cart.ts:138-143 | a line shows the variant's name, then the names of exactly the chosen options, in menu order |
| CartPricing.MenuFinds | apps/web/src/lib/menu-cart.ts:125-130 | a product is found exactly under an id that some product has, and is the last one with it |
| CartPricing.NoteKeepsTheBill | apps/web/src/lib/menu-cart.ts:94-114 | setting a note leaves total and item count alone, except that a merge above 99 drops exactly the cut pieces at the line's price, and nothing if it is not sellable |
| CartPricing.SameBasketSameBill | apps/web/src/lib/menu-cart.ts:124-153 | carts with the same quantities per identity have the same total and item count |
| CartPricing.BillIgnoresAddingOrder | apps/web/src/lib/menu-cart.ts:68-153 | the order in which lines of any non-negative quantities were added never changes the bill |
| CartPricing.OrderIsTheSellableCart | apps/web/src/lib/menu-cart.ts:155-163 | adding the order's items to an empty cart gives back the sellable part of the cart, with the shown total and item count |
| CartPricing.OrdersCarryNoEmptyText | apps/web/src/lib/menu-cart.ts:155-163 | no order item carries an empty note or variant; everything else is the line's |
| Charges.ComputeCharges | packages/contracts/src/charges.ts:41-49 | exactly negative amounts are refused; any other is split into the one breakdown whose base, service and tax are the nearest integers to their exact shares and add up to the total, the menu sum being the total or the base |
| Charges.SplitIsUnique | packages/contracts/src/charges.ts:48-73 | that description leaves no choice: one amount and its rates have one such breakdown |
| Charges.NearestUnique | packages/contracts/src/charges.ts:36-39 | rounding yields the one integer within half a unit, halves going up |
| Charges.ExactInversion | packages/contracts/src/charges.ts:48-73 | taking charges out of a total made by adding them returns the same base, service and tax, for every subtotal and all rates |
| Charges.ReaddingRestores | packages/contracts/src/charges.ts:48-73 | adding to the base taken out of a price returns the price exactly when the price is a total with charges added |
| Charges.ReaddingWithinTwo | packages/contracts/src/charges.ts:48-73 | for service up to 20000 and tax up to 6666 basis points, adding to the base taken out of a price lands within two minor units of it |
| Charges.PartsMonotone | packages/contracts/src/charges.ts:48-73 | no part shrinks when the subtotal grows, including the parts found by subtraction |
| Charges.ReaddingDrift | packages/contracts/src/charges.ts:4-73 | with rates up to the cap of 5000 basis points, re-adding lands within two minor units of the price |
| Charges.ReaddingDriftIsSharp | packages/contracts/src/charges.ts:4-73 | two units occur in both directions below the cap, and three occur one basis point above either limit of ReaddingWithinTwo |
| Charges.SplitBillDrift | packages/contracts/src/charges.ts:48-73 | n separate bills differ from the joint one by at most 5(n+1)/4 units when charges are added, by nothing when they are included |
| Charges.SplitBaseDrift | packages/contracts/src/charges.ts:64-72 | with charges included, at any rate, the bases of n separate bills sum to within n+1 units of the joint base |
| RateText.ParseIsTheGrammar | packages/contracts/src/charges.ts:76-81 | the parser accepts exactly one or two digits with an optional mark and one or two more, up to the cap, and reads them as basis points |
| RateText.FormatExactly | packages/contracts/src/charges.ts:83-90 | printed, with any mark, is the whole percent without leading zeros, alone or followed by the mark and one or two digits that do not end in 0 |
| RateText.FormatParses | packages/contracts/src/charges.ts:83-90 | printed text parses back to its rate up to the cap, and is refused above it |
| RateText.RateRoundTrip | packages/contracts/src/charges.ts:75-90 | every accepted rate survives printing with either mark and parsing again |
| RateText.FormatInjective | packages/contracts/src/charges.ts:84-90 | printing is injective over all naturals exactly when the decimal mark holds a non-digit |
| Crc32.TableEntry | apps/web/e2e/png.ts:3-9 | the inner loop of the table computes eight single-bit steps of the index |
| Crc32.BuildTable | apps/web/e2e/png.ts:3-9 | the table holds those steps for all 256 bytes |
| Crc32.PolynomialIsStandard | apps/web/e2e/png.ts:6 | the constant is the reflection of the CRC-32 polynomial given by its exponents |
| Crc32.EightAtOnce | apps/web/e2e/png.ts:13 | one table look-up equals eight single-bit steps, for every register value |
| Crc32.TableStep | apps/web/e2e/png.ts:13 | one loop step takes in the eight bits of the byte, lowest first |
| Crc32.Crc | apps/web/e2e/png.ts:11-15 | the table-driven sum equals the bit-at-a-time sum of every buffer |
| Crc32.CheckValues | apps/web/e2e/png.ts:11-15 | the sum of nothing is 0 and that of four bytes 255 is FFFFFFFF, which ties down start and complement |
| Crc32.BurstChangesCrc | apps/web/e2e/png.ts:11-15 | any change within 32 consecutive bits, at any bit offset, changes the sum |
| Crc32.FourBytesAreABurst | apps/web/e2e/png.ts:11-15 | any change inside four consecutive bytes is such a burst |
| Png.MakeChunk | apps/web/e2e/png.ts:17-24 | a chunk is length, type, data and CRC; a length that needs more than 32 bits is an error |
| Png.ReadOfChunk | apps/web/e2e/png.ts:17-24 | a written chunk reads back, whatever follows it |
| Png.FramingIsExact | apps/web/e2e/png.ts:17-39 | a file is accepted with given chunks exactly when it is the signature and those chunks as written |
| Png.MakeHeader | apps/web/e2e/png.ts:28-31 | writing in place builds the 13 header bytes, or fails for a size beyond 32 bits |
| Png.MakeRow | apps/web/e2e/png.ts:32-33 | writing in place builds a zero byte and the repeated pixel |
| Png.SolidPng | apps/web/e2e/png.ts:27-40 | the file is signature, IHDR, IDAT of the packed rows and IEND, or a range error |
| Png.ImageReadsBack | apps/web/e2e/png.ts:27-40 | the file reads back as exactly IHDR, IDAT and IEND with matching lengths and CRCs |
| Png.ImageDecodes | apps/web/e2e/png.ts:27-40 | unpacking the data gives the asked size, unfiltered rows, and the given colour at every place |
| Png.PixelBytes | apps/web/e2e/png.ts:27-39 | the bytes at every place are red, green and blue in this order, a missing channel being 0 |
| Png.DamagedChunkIsRefused | apps/web/e2e/png.ts:17-24 | damage to a chunk's type and data within 32 consecutive bits is always noticed |
| RetrySchedule.RunIsDoubling | apps/worker/src/queue-retry.ts:45-60 | a failing job is given up after exactly maxAttempts - 1 retries whose delays are repeated saturating doublings |
| RetrySchedule.DelaysAreBounded | apps/worker/src/queue-retry.ts:53-58 | delays never shrink and never pass the cap |
| RetrySchedule.TotalWait | apps/worker/src/queue-retry.ts:53-58 | the total wait is at most the doubling sum and at most every delay at the cap, and reaches the doubling sum exactly when the cap never bites |
| RetrySchedule.QueueDelaysFollowTheRun | apps/worker/src/queues.ts:27-31 | the delay the queue asks for after each attempt is the one of the run |
| RetrySchedule.OutsideTheRun | apps/worker/src/queue-retry.ts:45-60 | from maxAttempts on there is no retry and no delay; an attempt number below 1 waits like the first |
| DeadLetter.SanitizeObjectLoop | apps/worker/src/queue-retry.ts:83-107 | the loop fills the copy entry by entry, equal to the recursive sanitizer |
| DeadLetter.SanitizeValueLoop | apps/worker/src/queue-retry.ts:109-133 | copies one value, closing up arrays over undefined items |
| DeadLetter.SensitiveExactly | apps/worker/src/queue-retry.ts:42-43 | a key is sensitive exactly if one of the nine words stands in it, letter by letter up to ASCII case |
| DeadLetter.TokensAreNotStored | apps/worker/src/queue-retry.ts:91-97 | an entry accessToken or Authorization is dropped with the option and refused by its key without it, whatever it holds |
| DeadLetter.SanitizeSucceeds | apps/worker/src/queue-retry.ts:76-107 | a context is accepted exactly when no sensitive key and no invalid date occurs outside the dropped top-level subtrees |
| DeadLetter.FailingEntry | apps/worker/src/queue-retry.ts:91-97 | a failure points at an offending path, and its error names the key there |
| DeadLetter.FirstFailure | apps/worker/src/queue-retry.ts:90-99 | the error is that of the first entry that cannot be stored; those before it can |
| DeadLetter.ContextKept | apps/worker/src/queue-retry.ts:83-133 | every supported node outside the dropped subtrees whose path avoids the key __proto__ is in the copy at its path, array indexes closed up |
| DeadLetter.ContextKeptExactly | apps/worker/src/queue-retry.ts:83-133 | a supported node outside the dropped subtrees is in the copy exactly when its path does not pass through an own key __proto__ |
| DeadLetter.ProtoIsLost | apps/worker/src/queue-retry.ts:99-104 | the exception occurs: a well-formed context with an own entry __proto__ whose copy lacks it |
| DeadLetter.ContextComesFrom | apps/worker/src/queue-retry.ts:83-133 | nothing else is in the copy |
| DeadLetter.CopyKeepsOrder | apps/worker/src/queue-retry.ts:88-107 | at any depth the copy has exactly the storable entries, in their order |
| DeadLetter.SanitizedIsSafe | apps/worker/src/queue-retry.ts:76-133 | the copy has no sensitive key at any depth, and sanitizing it again changes nothing |
| OutboxLoop.Loop.constructor | apps/worker/src/outbox-loop.ts:26-41 | the first batch is in flight when the loop is handed out |
| OutboxLoop.Loop.BatchSettled | apps/worker/src/outbox-loop.ts:33 | a batch in flight ends with its outcome |
| OutboxLoop.Loop.PauseSettled | apps/worker/src/outbox-loop.ts:34-37 | a running pause ends, resolved or failed |
| OutboxLoop.Loop.Proceed | apps/worker/src/outbox-loop.ts:31-39 | the loop goes on from an await to the next, reading the stop flag where the code does |
| OutboxLoop.Loop.Stop | apps/worker/src/outbox-loop.ts:44-46 | stop raises the flag and waits |
| OutboxLoop.Loop.StopContinued | apps/worker/src/outbox-loop.ts:46 | stop resolves only after the loop has finished, and rejects after it broke off |
| OutboxLoop.Loop.Drive | apps/worker/src/outbox-loop.ts:22-49 | driven through any events from its start, the object is in the state of that run |
| OutboxLoop.LoopIsSafe | apps/worker/src/outbox-loop.ts:22-49 | in every run: batches and pauses never overlap, an empty or failed batch is followed by a whole pause of its kind before the next batch, nothing starts after stop, and stop resolves only when all has ended |
| OutboxLoop.TheLoopGoesOn | apps/worker/src/outbox-loop.ts:22-40 | neither stopped nor broken off, the loop always waits for an event, and at most six events it waits for lie before its next batch and between two batches, for any number of batches |
| OutboxLoop.EveryFailureIsReported | apps/worker/src/outbox-loop.ts:35-38 | each failed batch and each failed idle pause is reported exactly once, when the loop goes on; the pause after an error comes right after its report |
| OutboxLoop.TheTraceIsFaithful | apps/worker/src/outbox-loop.ts:24-49 | the batches and pauses that ended and the calls of stop stand in the trace in their order, each with its outcome; the loop is stopping exactly if stop was called |
| OutboxLoop.TheLoopKnowsTheOutcome | apps/worker/src/outbox-loop.ts:31-38 | the loop goes on with the outcome of the last promise it waited for |
| OutboxLoop.StopEndsTheLoop | apps/worker/src/outbox-loop.ts:31-48 | in every run, once stop was called each event the loop waits for brings its end one nearer, at most two remain, no other event counts, and until the end there is one it waits for |
| OutboxLoop.StopSettles | apps/worker/src/outbox-loop.ts:44-48 | after those events the loop is over, and one continuation per waiting caller settles every call of stop ever made: all resolve if it finished, all are rejected if it broke off |
| OutboxLoop.EveryStopIsCounted | apps/worker/src/outbox-loop.ts:44-48 | in every run calls of stop are exactly those resolved, rejected and waiting; none resolves before the loop has finished, none is rejected unless it broke off |
| OutboxLoop.CrashesExactly | apps/worker/src/outbox-loop.ts:35-38 | the loop breaks off exactly when onError throws on a failure or the pause after an error fails |
| OutboxLoop.StraightOnWhileThereIsWork | apps/worker/src/outbox-loop.ts:22-34 | a batch that took something is followed at once by the next one |
| ChannelListener.Listener.constructor | packages/database/src/listen.ts:32-72 | one attempt is started at once |
| ChannelListener.Listener.ScheduleReconnectNow | packages/database/src/listen.ts:36-42 | a timer is set unless the listener is closed or one is set |
| ChannelListener.Listener.OnConnected | packages/database/src/listen.ts:58-59 | a connected client goes on to LISTEN |
| ChannelListener.Listener.OnFailed | packages/database/src/listen.ts:66-69 | a failed attempt ends its client |
| ChannelListener.Listener.OnListening | packages/database/src/listen.ts:59-65 | a listening client is kept and reported, or ended if the listener was closed meanwhile |
| ChannelListener.Listener.OnError | packages/database/src/listen.ts:49-52 | an error ends the client |
| ChannelListener.Listener.OnEnd | packages/database/src/listen.ts:53-56 | an ended client is forgotten and a reconnect scheduled |
| ChannelListener.Listener.OnTimer | packages/database/src/listen.ts:38-41 | the timer starts the next attempt |
| ChannelListener.Listener.Close | packages/database/src/listen.ts:74-78 | close raises the flag, clears the timer and ends the kept client |
| ChannelListener.Listener.Drive | packages/database/src/listen.ts:32-79 | driven through any events from its start, the object is in the state of that run, and what each handler requires holds whenever it is called |
| ChannelListener.ExactlyOneInHand | packages/database/src/listen.ts:36-79 | until close, connections still to end plus the pending timer number exactly one; afterwards no timer and at most one connection |
| ChannelListener.ListenerIsSafe | packages/database/src/listen.ts:11-79 | in every run: a new attempt only after the previous connection ended and the timer fired, silence after close, each connection reported at most once |
| ChannelListener.ReportedExactly | packages/database/src/listen.ts:58-65 | a connection is reported exactly if its LISTEN query resolved before close |
| ChannelListener.KeptExactly | packages/database/src/listen.ts:53-64 | the kept client is the one that came up, until another comes up or it ends |
| ChannelListener.ToldExactly | packages/database/src/listen.ts:49-78 | end() is called on a connection exactly after its error, its failed attempt, an answer after close or with a throwing callback, or close while it is kept |
| ChannelListener.PhaseExactly | packages/database/src/listen.ts:57-69 | how far an attempt has come is decided by which of its promises settled, and in which order |
| ChannelListener.ClosedExactly | packages/database/src/listen.ts:36-78 | the listener is closed exactly if close was called, and each firing of the timer starts one attempt |
| ChannelListener.InFlightAtCloseIsNeverReported | packages/database/src/listen.ts:58-65 | an attempt in flight at close is never reported, and no attempt starts |
| ChannelListener.CloseLeaksNothing | packages/database/src/listen.ts:58-78 | if clients settle their promises before their end, a connection that outlives close was told to end or tells itself so when its attempt goes on |
| ChannelListener.CloseMissesExactly | packages/database/src/listen.ts:53-78 | in every run, close misses an open connection exactly when after it came up an ended connection answered late, and it has fired neither error nor end since it exists |
| ChannelListener.MissedForGood | packages/database/src/listen.ts:49-78 | a missed connection stays open and untold through every continuation until its own error or end |
| ChannelListener.LateAnswerLeaks | packages/database/src/listen.ts:53-78 | a run that meets that condition: close leaves connection 1 up, open and untold |
| MoneyEntry.FormattedDigits | packages/ui/src/components/money-display.tsx:104-120 | the digits of formatted money are the amount, decimals padded to their width |
| MoneyEntry.DecimalsStandInPlace | packages/ui/src/components/money-display.tsx:104-115 | with decimals, the text is front, fraction and back as the formatter places them; the fraction has the currency's width, the digits before it are the major units, both make up the amount |
| MoneyEntry.WithoutDecimals | packages/ui/src/components/money-display.tsx:104-115 | without decimals, the text is the formatter's for the amount |
| MoneyEntry.SignIsPutAround | packages/ui/src/components/money-display.tsx:117-118 | a negative amount is the text of its absolute value after a minus or in parentheses |
| MoneyEntry.NothingIsLost | packages/ui/src/components/money-display.tsx:72-80 | without white space next to a currency sign, all parts are shown |
| MoneyEntry.BlankAfterIsFree | packages/ui/src/components/money-display.tsx:72-80 | white space after a currency sign does not show, if no other follows it |
| MoneyEntry.BlankBeforeIsFree | packages/ui/src/components/money-display.tsx:72-80 | nor does white space before it, if no other precedes it |
| MoneyEntry.TenTwentyFive | packages/ui/src/components/money-display.tsx:104-115 | 1025 cents are shown as $10.25 |
| MoneyEntry.Reads | packages/ui/src/components/numeric-date.tsx:116-165 | a field reads as no value exactly if it holds neither digit nor minus, and otherwise as its digits |
| MoneyEntry.MoneyRoundTrip | packages/ui/src/components/numeric-date.tsx:116-165 | reading a formatted amount, with its sign shown either way, gives it back without its sign |
| MoneyEntry.TypingShifts | packages/ui/src/components/numeric-date.tsx:138-165 | typing digit d after the last digit gives 10·amount + d, from an empty field too |
| MoneyEntry.DeletingShifts | packages/ui/src/components/numeric-date.tsx:138-165 | deleting the last digit gives amount / 10 rounded down, except that a lone digit leaves no value |
| MoneyEntry.LoneDigitIsLost | packages/ui/src/components/numeric-date.tsx:162-164 | the exception occurs: deleting the digit of "Rp5" leaves no value |
| MoneyEntry.BackspaceAfterDigits | packages/ui/src/components/numeric-date.tsx:116-165 | removing a last character that is no digit leaves the amount as it is |
| MoneyEntry.CashRegister | packages/ui/src/components/numeric-date.tsx:138-142 | typing the digits of a number into an empty field enters that number |

## Left out

- Code units: a `char` stands for one UTF-16 code unit, but Dafny's characters exclude surrogates, so text outside the basic plane is not covered.
- Object identity in the cart: lines are values addressed by position; the code compares references, which differs only if one line object stands in a cart twice.
- Number limits: quantities, amounts and delays are mathematical integers; the 2^53 limit of numbers and the rejection of unsafe integers are not modelled.
- `formatMoneyMinor` relies on `Intl.NumberFormat`, which is any function that puts ASCII digits only into the integer and fraction parts and spells the major units there; other digit systems, and the parsing of amounts given as text, are left out.
- `deflateSync` is any function with an inverse; the format of compressed data, the runtime's limit on buffer sizes and UTF-8 encoding of other than the three ASCII chunk types are left out.
- The menu's own texts are numbers here: `BigInt(priceMinor)` of a malformed string, which throws, is left out.
- Contexts are finite trees of own entries; cyclic objects, getters and objects with their own ISO method are left out.
- Key tests use ASCII letter case, as the regular expression does.
- `buildDeadLetterEvent` only copies fields around the sanitizer.
- Callbacks of the listener other than `onConnected` are assumed not to throw, and message forwarding and argument checks are left out.
- Timer durations of the outbox loop and the listener: steps carry no clock.
- React components, routes, queues, persistence and the web client around these functions are input and output.
