/**
 * The two consumers the inventory service registers: OrderCreatedConsumer
 * (InventoryService/Consumers/OrderCreatedConsumer.cs) routes every order to Allocate,
 * PaymentProcessedConsumer (InventoryService/Consumers/PaymentProcessedConsumer.cs) routes
 * a payment outcome to Commit or Release. Both handlers always return normally.
 */
module InventoryConsumers {
  import opened Wrappers
  import opened Events
  import opened InventoryRules
  import opened Inventory
  import opened ReliableConsumer

  /** Queue "allocate_stock", bound to exchange "order" with key "order.created". */
  const AllocateStockConfig: ConsumerConfig := ConsumerConfig("allocate_stock", "order", "order.created")

  /** Queue "inventory_payment_update", bound to exchange "payment" with the pattern "payment.*". */
  const PaymentUpdateConfig: ConsumerConfig := ConsumerConfig("inventory_payment_update", "payment", "payment.*")

  /** The one store call a payment outcome triggers: Commit on success, Release on failure. */
  function RoutePaymentUpdate(e: PaymentProcessedEvent): (call: StoreCall)
    ensures call.CommitCall? <==> e.isSuccess
    ensures call.ReleaseCall? <==> !e.isSuccess
    ensures call.orderId == e.orderId && call.items == e.items
  {
    if e.isSuccess then CommitCall(e.orderId, e.items) else ReleaseCall(e.orderId, e.items)
  }

  /**
   * OrderCreatedConsumer.ProcessMessageAsync: one Allocate call with the event's order and
   * items. Its outcome is only logged, so the handler returns normally either way and
   * publishes nothing.
   */
  method HandleOrderCreated(service: InventoryService, e: OrderCreatedEvent) returns (r: HandlerResult)
    requires NewProductsDistinct(service.table, e.items)
    modifies service
    ensures r == Returned
    ensures service.calls == old(service.calls) + [AllocateCall(e.orderId, e.items)]
    ensures service.table == Apply(old(service.table), AllocateCall(e.orderId, e.items))
  {
    var success := service.Allocate(e.orderId, e.items);
    r := Returned;
  }

  /** PaymentProcessedConsumer.ProcessMessageAsync: exactly one of Commit or Release. */
  method HandlePaymentProcessed(service: InventoryService, e: PaymentProcessedEvent) returns (r: HandlerResult)
    modifies service
    ensures r == Returned
    ensures service.calls == old(service.calls) + [RoutePaymentUpdate(e)]
    ensures service.table == Apply(old(service.table), RoutePaymentUpdate(e))
  {
    if e.isSuccess {
      service.Commit(e.orderId, e.items);
    } else {
      service.Release(e.orderId, e.items);
    }
    r := Returned;
  }

  /**
   * One delivery to the allocate_stock consumer. A decoded order is acked whether or not the
   * stock sufficed (insufficient stock is never retried); anything else leaves the table alone.
   */
  method DeliverOrderCreated(consumer: Consumer<OrderCreatedEvent>, service: InventoryService,
                             decoded: Decoded<OrderCreatedEvent>, headers: Option<map<string, int>>)
      returns (d: Delivery)
    requires decoded.Message? ==> NewProductsDistinct(service.table, decoded.value.items)
    modifies consumer, service
    ensures decoded.Message? ==> d == Delivery(true, Ack)
    ensures d == Receive(decoded, Returned, DeliveryCount(headers))
    ensures consumer.settlements == old(consumer.settlements) + [d.settlement]
    ensures consumer.declarations == old(consumer.declarations)
    ensures service.table == if decoded.Message?
                             then Apply(old(service.table), AllocateCall(decoded.value.orderId, decoded.value.items))
                             else old(service.table)
    ensures service.calls == if decoded.Message?
                             then old(service.calls) + [AllocateCall(decoded.value.orderId, decoded.value.items)]
                             else old(service.calls)
  {
    var handler := Returned;
    if decoded.Message? {
      handler := HandleOrderCreated(service, decoded.value);
    }
    d := consumer.OnReceived(decoded, handler, headers);
  }

  /**
   * One delivery to the inventory_payment_update consumer. Nothing remembers which orders were
   * already settled, so every delivery of a decoded event applies its call again and is acked.
   */
  method DeliverPaymentProcessed(consumer: Consumer<PaymentProcessedEvent>, service: InventoryService,
                                 decoded: Decoded<PaymentProcessedEvent>, headers: Option<map<string, int>>)
      returns (d: Delivery)
    modifies consumer, service
    ensures decoded.Message? ==> d == Delivery(true, Ack)
    ensures d == Receive(decoded, Returned, DeliveryCount(headers))
    ensures consumer.settlements == old(consumer.settlements) + [d.settlement]
    ensures consumer.declarations == old(consumer.declarations)
    ensures service.table == if decoded.Message?
                             then Apply(old(service.table), RoutePaymentUpdate(decoded.value))
                             else old(service.table)
    ensures service.calls == if decoded.Message?
                             then old(service.calls) + [RoutePaymentUpdate(decoded.value)]
                             else old(service.calls)
  {
    var handler := Returned;
    if decoded.Message? {
      handler := HandlePaymentProcessed(service, decoded.value);
    }
    d := consumer.OnReceived(decoded, handler, headers);
  }

  /**
   * A PaymentProcessed event delivered twice subtracts its items twice: Commit lowers both
   * counters, Release the reservation only, by twice the demand of each known product.
   */
  lemma DuplicatePaymentUpdateAppliesTwice(t: Table, e: PaymentProcessedEvent)
    ensures var twice := Apply(Apply(t, RoutePaymentUpdate(e)), RoutePaymentUpdate(e));
      twice.Keys == t.Keys &&
      forall p :: p in t ==>
        twice[p].reservedQuantity == t[p].reservedQuantity - 2 * Demand(e.items, p) &&
        twice[p].quantity == t[p].quantity - (if e.isSuccess then 2 * Demand(e.items, p) else 0)
  {
    if e.isSuccess {
      CommitTwiceSubtractsTwice(t, e.items);
    } else {
      ReleaseTwiceSubtractsTwice(t, e.items);
    }
  }
}
