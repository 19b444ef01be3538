/**
 * The payment service's handler (PaymentService/Consumers/PaymentProcessConsumer.cs):
 * a fixed rule on the order amount, and the one PaymentProcessed event it publishes.
 */
module Payment {
  import opened Events
  import opened ReliableConsumer

  /** Queue "process_payment", bound to exchange "order" with key "order.created". */
  const ProcessPaymentConfig: ConsumerConfig := ConsumerConfig("process_payment", "order", "order.created")

  /** Orders strictly below this amount are authorised. */
  const ApprovalLimit: real := 1000.0

  const PaymentExchange: string := "payment"
  const SuccessRoutingKey: string := "payment.success"
  const FailedRoutingKey: string := "payment.failed"
  const AuthorizedReason: string := "Authorized"
  const DeclinedReason: string := "Insufficient Funds"

  /** A message handed to the producer: the event, its routing key and its exchange. */
  datatype Publication = Publication(message: PaymentProcessedEvent, routingKey: string, exchange: string)

  /**
   * ProcessMessageAsync: decide the payment and build the event to publish. `now` stands
   * for DateTime.UtcNow; the simulated processing delay is left out.
   */
  function ProcessPayment(order: OrderCreatedEvent, now: Timestamp): (p: Publication)
    ensures p.message.isSuccess <==> order.amount < ApprovalLimit
    ensures p.message.reason == if order.amount < ApprovalLimit then AuthorizedReason else DeclinedReason
    ensures p.routingKey == SuccessRoutingKey <==> p.message.isSuccess
    ensures p.routingKey == FailedRoutingKey <==> !p.message.isSuccess
    ensures p.message.orderId == order.orderId && p.message.items == order.items
    ensures p.message.timestamp == now
    ensures p.exchange == PaymentExchange
  {
    var isSuccess := order.amount < ApprovalLimit;
    var paymentEvent := PaymentProcessedEvent(
      order.orderId,
      isSuccess,
      if isSuccess then AuthorizedReason else DeclinedReason,
      now,
      order.items);
    Publication(paymentEvent, if isSuccess then SuccessRoutingKey else FailedRoutingKey, PaymentExchange)
  }

  /** The amounts of the integration scenarios, and the boundary: 500 passes, 1000 and 1500 fail. */
  lemma ApprovalBoundary(order: OrderCreatedEvent, now: Timestamp)
    ensures order.amount == 500.0 ==> ProcessPayment(order, now).routingKey == SuccessRoutingKey
    ensures order.amount == 1000.0 ==> ProcessPayment(order, now).message.reason == DeclinedReason
    ensures order.amount == 1500.0 ==> ProcessPayment(order, now).routingKey == FailedRoutingKey
  {
  }
}
