/**
 * The saga as a whole: an OrderCreated event reaches both the allocate_stock and the
 * process_payment queues; the payment outcome then commits or releases the reservation.
 */
module Saga {
  import opened Wrappers
  import opened Events
  import opened InventoryRules
  import opened ReliableConsumer
  import opened Payment
  import opened InventoryConsumers

  /**
   * The three consumers: both order.created consumers are bound to the same exchange and key,
   * on distinct queues with distinct dead-letter queues, and payment outcomes are published
   * on the exchange the payment-update consumer is bound to.
   */
  lemma SagaTopology()
    ensures Binds(AllocateStockConfig) && Binds(ProcessPaymentConfig) && Binds(PaymentUpdateConfig)
    ensures AllocateStockConfig.exchange == ProcessPaymentConfig.exchange == "order"
    ensures AllocateStockConfig.routingKey == ProcessPaymentConfig.routingKey == "order.created"
    ensures DeadLetterQueueName(AllocateStockConfig.queue) != DeadLetterQueueName(ProcessPaymentConfig.queue)
    ensures DeadLetterQueueName(PaymentUpdateConfig.queue) == "inventory_payment_update.dlq"
    ensures PaymentUpdateConfig.exchange == PaymentExchange
  {
    DeadLetterQueueNameInjective(AllocateStockConfig.queue, ProcessPaymentConfig.queue);
  }

  /** The inventory call a given order's payment outcome triggers. */
  lemma PaymentOutcomeDrivesInventory(order: OrderCreatedEvent, now: Timestamp)
    ensures RoutePaymentUpdate(ProcessPayment(order, now).message) ==
            if order.amount < ApprovalLimit then CommitCall(order.orderId, order.items)
            else ReleaseCall(order.orderId, order.items)
  {
  }

  /**
   * Allocation followed by the payment outcome (in that order): every reservation the order
   * took is given back; on an approved payment the stock of each product falls by its demand,
   * on a declined one it stays as it was (rows provisioned for the order remain at 100).
   */
  lemma AllocateThenPaymentSettles(t: Table, order: OrderCreatedEvent, now: Timestamp)
    requires AllocateAll(t, order.items).Some?
    ensures var afterAllocate := Apply(t, AllocateCall(order.orderId, order.items));
            var settled := Apply(afterAllocate, RoutePaymentUpdate(ProcessPayment(order, now).message));
            && settled.Keys == t.Keys + ProductIds(order.items)
            && forall p :: p in settled ==>
                 && settled[p].reservedQuantity == RowFor(t, p).reservedQuantity
                 && settled[p].quantity == RowFor(t, p).quantity - (if order.amount < ApprovalLimit then Demand(order.items, p) else 0)
  {
    var afterAllocate := AllocateAll(t, order.items).value;
    AllocatedShape(t, order.items);
    if order.amount < ApprovalLimit {
      CommitShape(afterAllocate, order.items);
    } else {
      ReleaseShape(afterAllocate, order.items);
    }
  }

  /**
   * Nothing orders the two order.created consumers: if the payment outcome for a new product is
   * handled before the allocation, Commit finds no row and skips it, and the later allocation
   * leaves a reservation that nothing will ever release.
   */
  lemma CommitBeforeAllocateStrandsReservation(t: Table, orderId: Guid, p: Guid, q: int)
    requires p !in t && 0 < q <= AutoProvisionQuantity
    ensures var items := [OrderItem(p, q)];
            var late := Apply(Apply(t, CommitCall(orderId, items)), AllocateCall(orderId, items));
            p in late && late[p] == Item(AutoProvisionQuantity, q)
  {
    var items := [OrderItem(p, q)];
    CommitShape(t, items);
    AllocatedShape(CommitAll(t, items), items);
    assert ProductIds(items) == {p};
  }

  // ---------------------------------------------------------------- scenarios

  const P1: Guid := 1

  function Order(amount: real, items: seq<OrderItem>): OrderCreatedEvent {
    OrderCreatedEvent(7, "customer", amount, "card", 0, items)
  }

  /**
   * Amount 500, one unit of a product the table does not hold yet: the allocation provisions
   * it at 100 and reserves 1, the payment is approved, and Commit leaves 99 on hand, 0 reserved.
   */
  lemma ScenarioApprovedOrder(now: Timestamp)
    ensures var order := Order(500.0, [OrderItem(P1, 1)]);
            var afterAllocate := Apply(map[], AllocateCall(order.orderId, order.items));
            && afterAllocate == map[P1 := Item(100, 1)]
            && Apply(afterAllocate, RoutePaymentUpdate(ProcessPayment(order, now).message)) == map[P1 := Item(99, 0)]
  {
    var order := Order(500.0, [OrderItem(P1, 1)]);
    assert order.items[1..] == [];
    assert map[][P1 := Item(100, 0)][P1 := Item(100, 1)] == map[P1 := Item(100, 1)];
    assert AllocateAll(map[], order.items) == Some(map[P1 := Item(100, 1)]);
    assert CommitAll(map[P1 := Item(100, 1)], order.items) == map[P1 := Item(99, 0)];
  }

  /**
   * Amount 1500, one unit of a new product: the reservation is taken, the payment is declined
   * with "Insufficient Funds", and Release leaves the provisioned row at 100 on hand, 0 reserved.
   */
  lemma ScenarioDeclinedOrder(now: Timestamp)
    ensures var order := Order(1500.0, [OrderItem(P1, 1)]);
            var afterAllocate := Apply(map[], AllocateCall(order.orderId, order.items));
            && ProcessPayment(order, now).message.reason == DeclinedReason
            && Apply(afterAllocate, RoutePaymentUpdate(ProcessPayment(order, now).message)) == map[P1 := Item(100, 0)]
  {
    var order := Order(1500.0, [OrderItem(P1, 1)]);
    assert order.items[1..] == [];
    assert map[][P1 := Item(100, 0)][P1 := Item(100, 1)] == map[P1 := Item(100, 1)];
    assert AllocateAll(map[], order.items) == Some(map[P1 := Item(100, 1)]);
    assert ReleaseAll(map[P1 := Item(100, 1)], order.items) == map[P1 := Item(100, 0)];
  }

  /** 150 units of a product with 100 on hand: allocation is rejected and the table is untouched. */
  lemma ScenarioInsufficientStock()
    ensures AllocateAll(map[P1 := Item(100, 0)], [OrderItem(P1, 150)]).None?
    ensures forall orderId :: Apply(map[P1 := Item(100, 0)], AllocateCall(orderId, [OrderItem(P1, 150)])) == map[P1 := Item(100, 0)]
  {
  }
}
