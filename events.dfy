/**
 * The event records exchanged between the services (Shared/OrderCreatedEvent.cs,
 * Shared/PaymentProcessedEvent.cs) and the line item they both carry.
 */
module Events {

  /** A Guid. Only equality of identifiers matters to the saga, so any type with equality would do. */
  type Guid = int

  /** A DateTime; it is only copied into events, never compared. */
  type Timestamp = int

  /** One order line: which product and how many units (a 32-bit C# `int`, possibly negative). */
  datatype OrderItem = OrderItem(productId: Guid, quantity: int)

  /**
   * Published by the order service when an order is created. `Amount` is a C# `decimal`,
   * an exact base-10 number, modelled as an exact `real`.
   */
  datatype OrderCreatedEvent = OrderCreatedEvent(
    orderId: Guid,
    customerName: string,
    amount: real,
    cardNumber: string,
    createdAt: Timestamp,
    items: seq<OrderItem>)

  /** Published by the payment service with the outcome of the payment and the echoed line items. */
  datatype PaymentProcessedEvent = PaymentProcessedEvent(
    orderId: Guid,
    isSuccess: bool,
    reason: string,
    timestamp: Timestamp,
    items: seq<OrderItem>)
}
