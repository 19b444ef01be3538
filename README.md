# Order saga: inventory reservations and reliable delivery, in Dafny

This project models the core of an order → payment → inventory saga whose services talk only
through RabbitMQ events, and proves properties of that model. There are three parts:

- **The inventory reservation table** (`InventoryService.cs`). It is a table of rows keyed by
  ProductId. Each row holds `Quantity` and `ReservedQuantity`. Three operations loop over an
  order's line items. `Allocate` is all-or-nothing. It auto-provisions an unknown product at
  100 on hand and 0 reserved, checks availability line by line, and saves only if every line
  fits. `Commit` lowers both counters. `Release` lowers only the reservation.
- **The reliable consumer** (`RabbitMQConsumer.cs`). For each delivery it decides between ack,
  nack with requeue, and nack to the dead-letter queue (DLQ). The decision depends on the
  decode result, the handler's result and the broker's `x-delivery-count` header. On start-up
  it declares a `<queue>.dlq` queue and the queue itself, plus a topic binding when one is
  configured.
- **The saga handlers.** The payment rule approves an order when its amount is below 1000. The
  inventory dispatchers send OrderCreated to Allocate, and a payment outcome to Commit (on
  success) or Release (on failure).

Modules, one per component:

| file | module | contents |
|---|---|---|
| `wrappers.dfy` | `Wrappers` | `Option` |
| `events.dfy` | `Events` | `OrderItem`, `OrderCreatedEvent`, `PaymentProcessedEvent` |
| `inventory_rules.dfy` | `InventoryRules` | the table as a `map`; `AllocateAll`, `CommitAll` and `ReleaseAll` as functions; their lemmas |
| `inventory_service.dfy` | `Inventory` | class `InventoryService`: the table as a field, with looping methods proved against those functions |
| `reliable_consumer.dfy` | `ReliableConsumer` | the per-delivery decision `Receive`, the redelivery sequence `Redeliver` and its loop, the topology, class `Consumer` |
| `payment.dfy` | `Payment` | `ProcessPayment` |
| `inventory_consumers.dfy` | `InventoryConsumers` | the two inventory handlers and what one delivery to each consumer does |
| `saga.dfy` | `Saga` | end-to-end lemmas and the three worked scenarios |

Modelling choices:

- A `Guid` is an `int`, because only equality of identifiers matters.
- C# `decimal Amount` is an exact `real`, so 999.5 is approved and 1000 is declined.
- `OrderItemDto`'s declaration is not part of this model. Its two fields, `ProductId` and
  `Quantity`, are taken from how `InventoryService.cs` uses them (lines 27 and 42).
- Clocks become parameters (`now`). Logging is dropped.
- The allocation loop works on the tracked rows: a `tracked` copy of the table. It writes that
  copy back only when the loop completes. An early `return false` therefore saves nothing,
  not even a provisioned row.
- Entity Framework returns the already-tracked instance of an existing row. So a product that
  is already in the table and appears on two lines has both lines checked against its running
  reservation. `Demand` sums such lines.

Three behaviours one might expect from a saga like this are not what the code does; the model
follows the code:

- An idempotent Commit and Release would apply each order once and keep `ReservedQuantity`
  at or above zero. The code has no per-order marker and no bounds check. The model subtracts again
  on every delivery (`CommitTwiceSubtractsTwice`, `DuplicatePaymentUpdateAppliesTwice`).
- Decode failures are not all dead-lettered at once. The code dead-letters only a `null`
  result. A JSON exception goes down the catch path and is retried like a handler failure.
- The queues are named `allocate_stock`, `process_payment` and `inventory_payment_update`,
  as in the consumers' constructors.

## Model

| member | source | states |
|---|---|---|
| `InventoryRules.AllocatedShape` | InventoryService/Services/InventoryService.cs:24-54 | a successful allocation adds a row for each unknown product, raises each product's `ReservedQuantity` by exactly its total requested quantity, and leaves every `Quantity` and every other row untouched |
| `InventoryRules.AllocateSucceedsIff` | InventoryService/Services/InventoryService.cs:29-46 | with non-negative requests, allocation succeeds iff every product's total demand is at most its available stock (`Quantity - ReservedQuantity`), an unknown product counting as 100 available |
| `InventoryRules.AllocatePreservesValid` | InventoryService/Services/InventoryService.cs:42-48 | from a table whose every row has `0 <= ReservedQuantity <= Quantity <= int.MaxValue`, with non-negative requests, a successful allocation keeps every row so (and so never overflows a C# `int`); the bound row by row, without that premise, is `AllocateKeepsBounded` |
| `InventoryRules.AllocateKeepsBounded` | InventoryService/Services/InventoryService.cs:42-48 | with non-negative requests, a successful allocation leaves every product of the order with `ReservedQuantity <= Quantity`, whatever its row held before (even a negative reservation), and every other row unchanged |
| `InventoryRules.CommitShape` | InventoryService/Services/InventoryService.cs:70-81 | commit creates no row, skips unknown products, and lowers both counters of each known row by its total demand |
| `InventoryRules.CommitKeepsAvailable` | InventoryService/Services/InventoryService.cs:75-79 | commit leaves the available stock of every row unchanged |
| `InventoryRules.CommitKeepsBounded` | InventoryService/Services/InventoryService.cs:77-78 | commit keeps `ReservedQuantity <= Quantity` on every row that had it, for any requests, since both counters fall by the same amount |
| `InventoryRules.ReleaseShape` | InventoryService/Services/InventoryService.cs:96-106 | release creates no row, skips unknown products, keeps every `Quantity`, and lowers each known row's reservation by its total demand |
| `InventoryRules.ReleaseKeepsBounded` | InventoryService/Services/InventoryService.cs:103 | with non-negative requests, release keeps `ReservedQuantity <= Quantity` on every row that had it |
| `InventoryRules.ReleaseUndoesAllocate` | InventoryService/Services/InventoryService.cs:48-104 | a Release of the items just allocated restores every reservation: the result is the original table plus the auto-provisioned rows at 100/0 |
| `InventoryRules.CommitTwiceSubtractsTwice` | InventoryService/Services/InventoryService.cs:64-89 | committing the same items twice lowers both counters by twice the demand |
| `InventoryRules.ReleaseTwiceSubtractsTwice` | InventoryService/Services/InventoryService.cs:91-114 | releasing the same items twice lowers the reservation by twice the demand |
| `InventoryRules.DuplicateCommitAfterAllocateGoesNegative` | InventoryService/Services/InventoryService.cs:75-79 | after a successful allocation, a duplicated Commit drives the reservation negative for any product whose prior reservation was below the order's demand |
| `Inventory.InventoryService.constructor` | InventoryService/Services/InventoryService.cs:13-17 | the service starts over the given table, with no calls recorded |
| `Inventory.InventoryService.Allocate` | InventoryService/Services/InventoryService.cs:19-62 | returns true iff every line fits; on false the saved table is unchanged; on true it holds exactly the reserved demand; with non-negative requests a table with no over-reserved row keeps none, and a table whose every row is valid (`0 <= ReservedQuantity <= Quantity <= int.MaxValue`) stays so |
| `Inventory.InventoryService.Commit` | InventoryService/Services/InventoryService.cs:64-89 | the loop's result equals `CommitAll`: same keys, available stock of every row unchanged, and a table with no over-reserved row keeps none |
| `Inventory.InventoryService.Release` | InventoryService/Services/InventoryService.cs:91-114 | the loop's result equals `ReleaseAll`: same keys, every `Quantity` unchanged, and with non-negative requests a table with no over-reserved row keeps none |
| `ReliableConsumer.Receive` | Messaging/RabbitMQConsumer.cs:63-113 | the handler runs iff the body decodes to a non-null message; ack iff it also returns; requeue iff an exception (decode or handler) with delivery count below 3; dead-letter iff null or an exception at count 3 or more |
| `ReliableConsumer.FirstDeliveryFailureIsRequeued` | Messaging/RabbitMQConsumer.cs:88-104 | missing headers or a missing `x-delivery-count` count as 0, so a failure is requeued |
| `ReliableConsumer.Redeliver` | Messaging/RabbitMQConsumer.cs:97-110 | the delivery sequence always ends in ack or dead-letter, after at most `MaxRetries + 1 - count` deliveries, with the handler run on each delivery iff the body decodes |
| `ReliableConsumer.NullIsDeadLetteredAtOnce` | Messaging/RabbitMQConsumer.cs:76-80 | a null body is dead-lettered on its first delivery, with no handler run |
| `ReliableConsumer.AlwaysFailingIsDeadLettered` | Messaging/RabbitMQConsumer.cs:82-111 | a message that fails every time (always-throwing handler or JSON exception) is delivered exactly `MaxRetries + 1 - count` times and then dead-lettered |
| `ReliableConsumer.AlwaysThrowingHandlerRunsFourTimes` | Messaging/RabbitMQConsumer.cs:97-110 | from counter 0, an always-throwing handler runs exactly 4 times before the message goes to the DLQ |
| `ReliableConsumer.AckedIffHandlerReturnsInTime` | Messaging/RabbitMQConsumer.cs:68-111 | a message is acked iff it decodes and its handler returns on some delivery whose counter is at most 3; otherwise it is dead-lettered |
| `ReliableConsumer.DeliverUntilSettled` | Messaging/RabbitMQConsumer.cs:63-113 | the loop of deliveries equals `Redeliver` from counter 0: at most 4 attempts, never left requeued |
| `ReliableConsumer.DeadLetterQueueNameInjective` | Messaging/RabbitMQConsumer.cs:39 | `<queue>.dlq` names differ for different queues and never equal the queue itself |
| `ReliableConsumer.DeadLettersReachDeclaredQueue` | Messaging/RabbitMQConsumer.cs:38-53 | the main queue is durable quorum and dead-letters through the default exchange `""` to `<queue>.dlq`, a durable quorum queue the same topology declares with no dead-letter rule of its own |
| `ReliableConsumer.BoundIffBothNamesGiven` | Messaging/RabbitMQConsumer.cs:55-60 | a binding is declared iff both exchange and routing key are non-empty; it binds the queue to that exchange with that key, right after declaring the exchange as a durable topic exchange |
| `ReliableConsumer.Consumer.constructor` | Messaging/RabbitMQConsumer.cs:18-24 | the consumer keeps its queue, exchange and routing key, the last two defaulting to `""` |
| `ReliableConsumer.Consumer.DeclareTopology` | Messaging/RabbitMQConsumer.cs:38-60 | the declarations sent, step by step, are exactly `Topology(config)` |
| `ReliableConsumer.Consumer.OnReceived` | Messaging/RabbitMQConsumer.cs:63-113 | the callback settles each delivery as `Receive` decides, reading the counter from the headers, and records exactly one settlement |
| `Payment.ProcessPayment` | PaymentService/Consumers/PaymentProcessConsumer.cs:18-39 | success iff amount < 1000; reason "Authorized"/"Insufficient Funds"; routing key "payment.success" iff success and "payment.failed" otherwise; OrderId and Items copied; one publication to exchange "payment" |
| `Payment.ApprovalBoundary` | integration_test.py:118-142 | 500 is approved, 1000 and 1500 are declined |
| `InventoryConsumers.RoutePaymentUpdate` | InventoryService/Consumers/PaymentProcessedConsumer.cs:26-33 | a payment outcome maps to Commit iff IsSuccess and to Release otherwise, with the event's OrderId and Items |
| `InventoryConsumers.HandleOrderCreated` | InventoryService/Consumers/OrderCreatedConsumer.cs:19-36 | exactly one Allocate call with the event's OrderId and Items; the handler returns normally whatever the outcome |
| `InventoryConsumers.HandlePaymentProcessed` | InventoryService/Consumers/PaymentProcessedConsumer.cs:19-34 | exactly one call, Commit or Release as routed; the handler returns normally |
| `InventoryConsumers.DeliverOrderCreated` | InventoryService/Consumers/OrderCreatedConsumer.cs:26-35 | a decoded order is acked whether or not stock sufficed, so insufficient stock is never retried; exactly one Allocate call is recorded for it; an undecoded one leaves the table and the call record alone; the declarations are untouched |
| `InventoryConsumers.DeliverPaymentProcessed` | InventoryService/Consumers/PaymentProcessedConsumer.cs:19-34 | every delivery of a decoded payment event records and applies its routed call again and is acked; an undecoded one leaves the table and the call record alone; the declarations are untouched |
| `InventoryConsumers.DuplicatePaymentUpdateAppliesTwice` | InventoryService/Consumers/PaymentProcessedConsumer.cs:19-34 | two deliveries of the same event subtract twice: both counters on success, the reservation only on failure |
| `Saga.SagaTopology` | InventoryService/Consumers/OrderCreatedConsumer.cs:13 | both order.created consumers bind to "order"/"order.created" with distinct DLQs; payment outcomes are published on the exchange the payment-update consumer is bound to |
| `Saga.PaymentOutcomeDrivesInventory` | PaymentService/Consumers/PaymentProcessConsumer.cs:25-36 | the inventory call an order's payment triggers is Commit iff amount < 1000, else Release, with the order's items |
| `Saga.AllocateThenPaymentSettles` | InventoryService/Services/InventoryService.cs:19-114 | allocation followed by the payment outcome gives back every reservation; stock falls by the demand iff the payment was approved |
| `Saga.CommitBeforeAllocateStrandsReservation` | InventoryService/Services/InventoryService.cs:64-79 | if a new product's Commit is handled before its allocation, Commit skips it and the later reservation is never released |
| `Saga.ScenarioApprovedOrder` | integration_test.py:118-128 | amount 500 with one unit of a product not yet in the table is approved, as the test expects; the inventory figures (provisioned at 100, 1 reserved, then 99 on hand and 0 reserved) follow from the model, since the test checks only the order status |
| `Saga.ScenarioDeclinedOrder` | integration_test.py:131-142 | amount 1500 with one unit of a new product is declined with "Insufficient Funds", as the test expects; the inventory figures (Release leaves 100 on hand and 0 reserved) follow from the model, since the test checks only the order status |
| `Saga.ScenarioInsufficientStock` | InventoryService/Services/InventoryService.cs:42-46 | 150 requested of 100 on hand: rejected, table unchanged |

## Left out

- Broker I/O is not modelled. This covers connection and channel creation, the actual
  `QueueDeclareAsync`/`ExchangeDeclareAsync`/`QueueBindAsync` calls, `BasicConsumeAsync`, the
  one-second `Task.Delay` before a requeue, the half-second `Task.Delay` that simulates payment
  processing in `PaymentProcessConsumer`, the infinite wait and `Dispose`. Declarations and
  settlements are recorded in `Consumer`'s fields instead.
- `System.Text.Json` is a foreign library. Decoding is an abstract result: a message, null, or
  an exception.
- The `(long)countObj!` cast of the header value is not modelled. Header values are integers,
  so a header of another type, which would throw inside the catch block, is not represented.
- Topic wildcard matching of `payment.*` is the broker's behaviour. The model keeps only the
  pattern string.
- `RabbitMQProducer` is not part of this model. It is a network client with lazy, lock-guarded
  connection creation. A failed publish would make the payment handler throw and hence retry;
  `ProcessPayment` always publishes.
- Entity Framework is not part of this model. This covers transactions, rollback, the InMemory
  provider, the surrogate `Id` with `Guid.NewGuid`, and the exception paths. An exception raised
  inside the `try` makes Allocate roll back and return false, and Commit and Release log and
  swallow it. `BeginTransactionAsync` is called before the `try`, so an exception it raises
  (the InMemory provider refuses transactions unless its warning is configured away) escapes
  the service, makes the handler throw, and sends the message down the requeue/DLQ path.
- `Inventory.InventoryService.Allocate` requires that a product missing from the table appears
  on at most one line. For a repeated new product the source adds one row per line, which a
  table keyed by ProductId cannot hold.
- `InventoryRules.CommitAll`, `InventoryRules.ReleaseAll` and `InventoryRules.AllocateAll` use
  unbounded integers, not 32-bit wrap-around. `AllocatePreservesValid` shows that allocation
  stays in range from valid rows with non-negative requests only. Wrap can follow repeated
  Commit/Release past zero, and also negative request quantities in Allocate, which neither
  the source nor the model rejects: with lines of -2147483648 and then 1 of a product at
  100/0, the source's `Quantity - ReservedQuantity` wraps and Allocate returns false, while
  `AllocateAll` succeeds.
- Concurrency and ordering between consumers are not modelled, beyond the one ordering
  counterexample `CommitBeforeAllocateStrandsReservation`.
- HTTP and bootstrapping are not modelled: controllers and `Program.cs` files.
  `OrdersController` never copies Items into the event, so the items do not actually flow end
  to end. The scenarios assume they do.
- The order service is not modelled. `OrderUpdateConsumer` only logs, and no code changes
  order status. The log-only stub consumers are not registered.
