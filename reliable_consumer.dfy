/**
 * The generic consumer of Messaging/RabbitMQConsumer.cs: the queue topology it declares
 * on start-up and the ack / requeue / dead-letter decision it takes for every delivery.
 * The broker itself is not modelled: declarations and settlements are recorded, not sent.
 */
module ReliableConsumer {
  import opened Wrappers

  /** What JSON decoding of a delivery's body gives: a message, a null, or an exception. */
  datatype Decoded<T> = Message(value: T) | NullMessage | DecodeError

  /** How the message handler ended: it returned, or it threw. */
  datatype HandlerResult = Returned | Threw

  /** How a delivery is settled with the broker. */
  datatype Settlement = Ack | NackRequeue | NackDeadLetter

  /** Whether the handler ran for a delivery, and how the delivery was settled. */
  datatype Delivery = Delivery(handlerInvoked: bool, settlement: Settlement)

  /** Failed deliveries whose broker counter has reached this value go to the dead-letter queue. */
  const MaxRetries: int := 3

  const DeliveryCountHeader: string := "x-delivery-count"
  const DeadLetterSuffix: string := ".dlq"
  const QueueTypeArgument: string := "x-queue-type"
  const DeadLetterExchangeArgument: string := "x-dead-letter-exchange"
  const DeadLetterRoutingKeyArgument: string := "x-dead-letter-routing-key"

  /** The broker's redelivery counter: absent headers or an absent header count as 0. */
  function DeliveryCount(headers: Option<map<string, int>>): int {
    if headers.Some? && DeliveryCountHeader in headers.value then headers.value[DeliveryCountHeader] else 0
  }

  /** A delivery that raised an exception: in decoding, or in a handler that was invoked. */
  predicate Failed<T>(decoded: Decoded<T>, handler: HandlerResult) {
    decoded.DecodeError? || (decoded.Message? && handler == Threw)
  }

  /** The catch block: requeue while the counter is below MaxRetries, then dead-letter. */
  function AfterException(deliveryCount: int): Settlement {
    if deliveryCount < MaxRetries then NackRequeue else NackDeadLetter
  }

  /**
   * The ReceivedAsync callback for one delivery. `handler` is what the handler does if it
   * is invoked; it is invoked only on a non-null message, and the ack comes after it returns.
   */
  function Receive<T>(decoded: Decoded<T>, handler: HandlerResult, deliveryCount: int): (d: Delivery)
    ensures d.handlerInvoked <==> decoded.Message?
    ensures d.settlement == Ack <==> decoded.Message? && handler == Returned
    ensures d.settlement == NackRequeue <==> Failed(decoded, handler) && deliveryCount < MaxRetries
    ensures d.settlement == NackDeadLetter <==>
              decoded.NullMessage? || (Failed(decoded, handler) && deliveryCount >= MaxRetries)
  {
    match decoded
    case Message(_) =>
      if handler == Returned then Delivery(true, Ack) else Delivery(true, AfterException(deliveryCount))
    case NullMessage => Delivery(false, NackDeadLetter)
    case DecodeError => Delivery(false, AfterException(deliveryCount))
  }

  /** A first delivery carries no counter, so a failure on it is always retried. */
  lemma FirstDeliveryFailureIsRequeued<T>(decoded: Decoded<T>, handler: HandlerResult, headers: Option<map<string, int>>)
    requires Failed(decoded, handler)
    requires headers.None? || DeliveryCountHeader !in headers.value
    ensures Receive(decoded, handler, DeliveryCount(headers)).settlement == NackRequeue
  {
  }

  // ---------------------------------------------------------------- redelivery

  /** The fate of one message over all its deliveries. */
  datatype Settled = Settled(attempts: nat, invocations: nat, settlement: Settlement)

  /**
   * Deliver the same body again and again, the broker's counter being `count` on this
   * delivery and one more on each redelivery; `handlerAt(k)` is what the handler does on
   * the delivery whose counter is `k`. Stops at the first settlement that is not a requeue.
   */
  function Redeliver<T>(decoded: Decoded<T>, handlerAt: nat -> HandlerResult, count: nat): (s: Settled)
    ensures s.settlement != NackRequeue
    ensures 1 <= s.attempts
    ensures count <= MaxRetries ==> s.attempts <= MaxRetries + 1 - count
    ensures s.invocations == if decoded.Message? then s.attempts else 0
    decreases MaxRetries - count
  {
    var d := Receive(decoded, handlerAt(count), count);
    var ran := if d.handlerInvoked then 1 else 0;
    if d.settlement == NackRequeue then
      var rest := Redeliver(decoded, handlerAt, count + 1);
      Settled(rest.attempts + 1, rest.invocations + ran, rest.settlement)
    else
      Settled(1, ran, d.settlement)
  }

  /** A body that decodes to null is dead-lettered on its first delivery, the handler never running. */
  lemma NullIsDeadLetteredAtOnce<T>(handlerAt: nat -> HandlerResult, count: nat)
    ensures Redeliver(Decoded<T>.NullMessage, handlerAt, count) == Settled(1, 0, NackDeadLetter)
  {
  }

  /**
   * A message whose every delivery fails (its handler always throws, or its body never
   * decodes) is delivered MaxRetries + 1 - count more times and then dead-lettered.
   */
  lemma {:induction false} AlwaysFailingIsDeadLettered<T>(decoded: Decoded<T>, handlerAt: nat -> HandlerResult, count: nat)
    requires count <= MaxRetries
    requires decoded.DecodeError? || (decoded.Message? && forall k :: handlerAt(k) == Threw)
    ensures Redeliver(decoded, handlerAt, count).attempts == MaxRetries + 1 - count
    ensures Redeliver(decoded, handlerAt, count).settlement == NackDeadLetter
    decreases MaxRetries - count
  {
    if count < MaxRetries {
      AlwaysFailingIsDeadLettered(decoded, handlerAt, count + 1);
    }
  }

  /** From the first delivery, an always-throwing handler runs exactly four times. */
  lemma AlwaysThrowingHandlerRunsFourTimes<T>(message: T, handlerAt: nat -> HandlerResult)
    requires forall k :: handlerAt(k) == Threw
    ensures Redeliver(Message(message), handlerAt, 0) == Settled(4, 4, NackDeadLetter)
  {
    AlwaysFailingIsDeadLettered(Message(message), handlerAt, 0);
  }

  /**
   * A message is acked exactly when it decodes and its handler returns on one of the
   * deliveries still allowed (counter at most MaxRetries); otherwise it ends in the DLQ.
   */
  lemma {:induction false} AckedIffHandlerReturnsInTime<T>(decoded: Decoded<T>, handlerAt: nat -> HandlerResult, count: nat)
    requires count <= MaxRetries
    ensures Redeliver(decoded, handlerAt, count).settlement == Ack <==>
            decoded.Message? && exists k: nat :: count <= k <= MaxRetries && handlerAt(k) == Returned
    ensures Redeliver(decoded, handlerAt, count).settlement != Ack ==>
            Redeliver(decoded, handlerAt, count).settlement == NackDeadLetter
    decreases MaxRetries - count
  {
    if decoded.Message? && handlerAt(count) == Threw && count < MaxRetries {
      AckedIffHandlerReturnsInTime(decoded, handlerAt, count + 1);
      if exists k: nat :: count <= k <= MaxRetries && handlerAt(k) == Returned {
        var k: nat :| count <= k <= MaxRetries && handlerAt(k) == Returned;
        assert count + 1 <= k;
      }
    }
  }

  /**
   * The retry loop the broker and the callback run together for one message, from its
   * first delivery (counter 0).
   */
  method DeliverUntilSettled<T>(decoded: Decoded<T>, handlerAt: nat -> HandlerResult) returns (s: Settled)
    ensures s == Redeliver(decoded, handlerAt, 0)
    ensures s.attempts <= MaxRetries + 1 && s.settlement != NackRequeue
  {
    var count: nat := 0;
    var invocations: nat := 0;
    var settlement := NackRequeue;
    while settlement == NackRequeue
      invariant count <= MaxRetries + 1
      invariant settlement == NackRequeue ==> count <= MaxRetries
      invariant invocations == if decoded.Message? then count else 0
      invariant settlement == NackRequeue ==>
        var rest := Redeliver(decoded, handlerAt, count);
        Redeliver(decoded, handlerAt, 0) == Settled(count + rest.attempts, invocations + rest.invocations, rest.settlement)
      invariant settlement != NackRequeue ==>
        Redeliver(decoded, handlerAt, 0) == Settled(count, invocations, settlement)
      decreases MaxRetries + 1 - count, if settlement == NackRequeue then 1 else 0
    {
      var d := Receive(decoded, handlerAt(count), count);
      if d.handlerInvoked {
        invocations := invocations + 1;
      }
      settlement := d.settlement;
      count := count + 1;
    }
    s := Settled(count, invocations, settlement);
  }

  // ---------------------------------------------------------------- topology

  /** A declaration sent to the broker when a consumer starts. */
  datatype Declaration =
    | QueueDeclare(queue: string, durable: bool, arguments: map<string, string>)
    | TopicExchangeDeclare(exchange: string, durable: bool)
    | QueueBind(queue: string, exchange: string, routingKey: string)

  /** The queue a consumer listens on and, optionally, the topic binding that feeds it. */
  datatype ConsumerConfig = ConsumerConfig(queue: string, exchange: string, routingKey: string)

  function DeadLetterQueueName(queue: string): string {
    queue + DeadLetterSuffix
  }

  function MainQueueArguments(queue: string): map<string, string> {
    map[QueueTypeArgument := "quorum",
        DeadLetterExchangeArgument := "",
        DeadLetterRoutingKeyArgument := DeadLetterQueueName(queue)]
  }

  /** The topic binding is declared only when both the exchange and the routing key are non-empty. */
  predicate Binds(config: ConsumerConfig) {
    config.exchange != "" && config.routingKey != ""
  }

  /** Everything a consumer declares, in order: its DLQ, its queue, and the binding if any. */
  function Topology(config: ConsumerConfig): seq<Declaration> {
    [QueueDeclare(DeadLetterQueueName(config.queue), true, map[QueueTypeArgument := "quorum"]),
     QueueDeclare(config.queue, true, MainQueueArguments(config.queue))]
    + (if Binds(config)
       then [TopicExchangeDeclare(config.exchange, true), QueueBind(config.queue, config.exchange, config.routingKey)]
       else [])
  }

  /** Distinct queues have distinct dead-letter queues, and no queue is its own dead-letter queue. */
  lemma DeadLetterQueueNameInjective(q1: string, q2: string)
    ensures DeadLetterQueueName(q1) == DeadLetterQueueName(q2) ==> q1 == q2
    ensures DeadLetterQueueName(q1) != q1
  {
    if DeadLetterQueueName(q1) == DeadLetterQueueName(q2) {
      assert q1 == DeadLetterQueueName(q1)[..|q1|];
      assert q2 == DeadLetterQueueName(q2)[..|q2|];
    }
  }

  /** `ds` declares a durable quorum queue `name` that has no dead-letter routing of its own. */
  predicate DeclaresPlainQueue(ds: seq<Declaration>, name: string) {
    exists i :: 0 <= i < |ds| && ds[i] == QueueDeclare(name, true, map[QueueTypeArgument := "quorum"])
  }

  /**
   * The consumer's queue is declared durable and quorum, and dead-letters through the
   * default exchange (which routes by queue name) into a queue the same topology declares,
   * which itself dead-letters nowhere.
   */
  lemma DeadLettersReachDeclaredQueue(config: ConsumerConfig)
    ensures QueueDeclare(config.queue, true, MainQueueArguments(config.queue)) in Topology(config)
    ensures MainQueueArguments(config.queue)[QueueTypeArgument] == "quorum"
    ensures MainQueueArguments(config.queue)[DeadLetterExchangeArgument] == ""
    ensures DeclaresPlainQueue(Topology(config), MainQueueArguments(config.queue)[DeadLetterRoutingKeyArgument])
  {
    assert Topology(config)[0] == QueueDeclare(MainQueueArguments(config.queue)[DeadLetterRoutingKeyArgument], true, map[QueueTypeArgument := "quorum"]);
  }

  /** The queue is bound, to the configured exchange with the configured key, exactly when Binds holds. */
  lemma BoundIffBothNamesGiven(config: ConsumerConfig)
    ensures (exists i :: 0 <= i < |Topology(config)| && Topology(config)[i].QueueBind?) <==> Binds(config)
    ensures forall i :: 0 <= i < |Topology(config)| && Topology(config)[i].QueueBind? ==>
      Topology(config)[i] == QueueBind(config.queue, config.exchange, config.routingKey) &&
      Topology(config)[i - 1] == TopicExchangeDeclare(config.exchange, true)
  {
    if Binds(config) {
      assert Topology(config)[3].QueueBind?;
    }
  }

  /**
   * The consumer object: its configuration, and the record of what it declared and how it
   * settled each delivery on its channel.
   */
  class Consumer<T> {
    const config: ConsumerConfig
    var declarations: seq<Declaration>
    var settlements: seq<Settlement>

    constructor (queueName: string, exchangeName: string := "", routingKey: string := "")
      ensures config == ConsumerConfig(queueName, exchangeName, routingKey)
      ensures declarations == [] && settlements == []
    {
      config := ConsumerConfig(queueName, exchangeName, routingKey);
      declarations := [];
      settlements := [];
    }

    /** The declarations of ExecuteAsync, one after the other. */
    method DeclareTopology()
      modifies this
      ensures declarations == old(declarations) + Topology(config)
      ensures settlements == old(settlements)
    {
      var dlqName := config.queue + DeadLetterSuffix;
      declarations := declarations + [QueueDeclare(dlqName, true, map[QueueTypeArgument := "quorum"])];
      var args := map[QueueTypeArgument := "quorum",
                      DeadLetterExchangeArgument := "",
                      DeadLetterRoutingKeyArgument := dlqName];
      declarations := declarations + [QueueDeclare(config.queue, true, args)];
      if config.exchange != "" && config.routingKey != "" {
        declarations := declarations + [TopicExchangeDeclare(config.exchange, true)];
        declarations := declarations + [QueueBind(config.queue, config.exchange, config.routingKey)];
      }
    }

    /** One run of the ReceivedAsync callback, given what the handler does if it is invoked. */
    method OnReceived(decoded: Decoded<T>, handler: HandlerResult, headers: Option<map<string, int>>) returns (d: Delivery)
      modifies this
      ensures d == Receive(decoded, handler, DeliveryCount(headers))
      ensures settlements == old(settlements) + [d.settlement]
      ensures declarations == old(declarations)
    {
      if decoded.Message? && handler == Returned {
        d := Delivery(true, Ack);
      } else if decoded.NullMessage? {
        d := Delivery(false, NackDeadLetter);
      } else {
        var deliveryCount := 0;
        if headers.Some? && DeliveryCountHeader in headers.value {
          deliveryCount := headers.value[DeliveryCountHeader];
        }
        d := Delivery(decoded.Message?, if deliveryCount < MaxRetries then NackRequeue else NackDeadLetter);
      }
      settlements := settlements + [d.settlement];
    }
  }
}
