/**
 * The InventoryItems table and what AllocateAsync, CommitAsync and ReleaseAsync
 * (InventoryService/Services/InventoryService.cs) do to it, stated as functions over
 * the table, together with the properties of those functions.
 */
module InventoryRules {
  import opened Wrappers
  import opened Events

  /** One row of the InventoryItems table; the surrogate key `Id` plays no part and is left out. */
  datatype Item = Item(quantity: int, reservedQuantity: int)

  /** The table, keyed by ProductId. */
  type Table = map<Guid, Item>

  /** Stock given to a product the first time an allocation mentions it. */
  const AutoProvisionQuantity: int := 100

  /** Largest value of a C# `int`. */
  const Int32Max: int := 0x7fff_ffff

  /** Stock that is neither committed nor reserved. */
  function Available(row: Item): int {
    row.quantity - row.reservedQuantity
  }

  /** The row allocation works on for `p`: the stored one, or a freshly provisioned one. */
  function RowFor(t: Table, p: Guid): Item {
    if p in t then t[p] else Item(AutoProvisionQuantity, 0)
  }

  /** A row with no negative counter, no more reserved than on hand, and within the range of a C# `int`. */
  predicate ValidRow(row: Item) {
    0 <= row.reservedQuantity <= row.quantity <= Int32Max
  }

  predicate ValidTable(t: Table) {
    forall p :: p in t ==> ValidRow(t[p])
  }

  predicate NonNegative(lines: seq<OrderItem>) {
    forall i :: 0 <= i < |lines| ==> lines[i].quantity >= 0
  }

  /** The products an order mentions. */
  function ProductIds(lines: seq<OrderItem>): set<Guid>
    decreases |lines|
  {
    if lines == [] then {} else {lines[0].productId} + ProductIds(lines[1..])
  }

  /** Total quantity of `p` requested over all lines of an order (repeated lines add up). */
  function Demand(lines: seq<OrderItem>, p: Guid): int
    decreases |lines|
  {
    if lines == [] then 0
    else (if lines[0].productId == p then lines[0].quantity else 0) + Demand(lines[1..], p)
  }

  /**
   * A product that is absent from the stored table appears on at most one line. For such
   * a product the source adds a new row per line (its lookup queries the store, which does
   * not see unsaved rows), which a table keyed by ProductId cannot hold.
   */
  predicate NewProductsDistinct(t: Table, lines: seq<OrderItem>) {
    forall i, j :: 0 <= i < j < |lines| && lines[i].productId !in t ==> lines[i].productId != lines[j].productId
  }

  /**
   * Allocation, line by line: provision an unknown product, reject the whole order as soon
   * as one line asks for more than is available, otherwise reserve it. `None` is the
   * rejection, in which case nothing is saved.
   */
  function AllocateAll(t: Table, lines: seq<OrderItem>): Option<Table>
    decreases |lines|
  {
    if lines == [] then Some(t)
    else
      var row := RowFor(t, lines[0].productId);
      if Available(row) < lines[0].quantity then None
      else AllocateAll(t[lines[0].productId := row.(reservedQuantity := row.reservedQuantity + lines[0].quantity)], lines[1..])
  }

  /** Commit of one line: an existing row loses the quantity from both counters; an unknown product is skipped. */
  function CommitLine(t: Table, line: OrderItem): Table {
    if line.productId in t then
      var row := t[line.productId];
      t[line.productId := Item(row.quantity - line.quantity, row.reservedQuantity - line.quantity)]
    else t
  }

  function CommitAll(t: Table, lines: seq<OrderItem>): Table
    decreases |lines|
  {
    if lines == [] then t else CommitAll(CommitLine(t, lines[0]), lines[1..])
  }

  /** Release of one line: an existing row loses the quantity from its reservation only. */
  function ReleaseLine(t: Table, line: OrderItem): Table {
    if line.productId in t then
      var row := t[line.productId];
      t[line.productId := row.(reservedQuantity := row.reservedQuantity - line.quantity)]
    else t
  }

  function ReleaseAll(t: Table, lines: seq<OrderItem>): Table
    decreases |lines|
  {
    if lines == [] then t else ReleaseAll(ReleaseLine(t, lines[0]), lines[1..])
  }

  /** The table with a provisioned row added for every product of the order it did not hold. */
  function Provision(t: Table, lines: seq<OrderItem>): Table {
    map p | p in t.Keys + ProductIds(lines) :: RowFor(t, p)
  }

  /** A call made on the inventory service by one of its consumers. */
  datatype StoreCall =
    | AllocateCall(orderId: Guid, items: seq<OrderItem>)
    | CommitCall(orderId: Guid, items: seq<OrderItem>)
    | ReleaseCall(orderId: Guid, items: seq<OrderItem>)

  /** The table after a call; a rejected allocation leaves it as it was. */
  function Apply(t: Table, call: StoreCall): Table {
    match call
    case AllocateCall(_, items) => (match AllocateAll(t, items) case Some(t') => t' case None => t)
    case CommitCall(_, items) => CommitAll(t, items)
    case ReleaseCall(_, items) => ReleaseAll(t, items)
  }

  /** `r` is `t` after reserving exactly the demand of every product, provisioning unknown ones. */
  predicate ReservesDemand(t: Table, lines: seq<OrderItem>, r: Table) {
    && r.Keys == t.Keys + ProductIds(lines)
    && forall p :: p in r ==> r[p] == Item(RowFor(t, p).quantity, RowFor(t, p).reservedQuantity + Demand(lines, p))
  }

  // ---------------------------------------------------------------- demand

  lemma {:induction false} DemandOutside(lines: seq<OrderItem>, p: Guid)
    requires p !in ProductIds(lines)
    ensures Demand(lines, p) == 0
    decreases |lines|
  {
    if lines != [] {
      DemandOutside(lines[1..], p);
    }
  }

  lemma {:induction false} DemandNonNegative(lines: seq<OrderItem>, p: Guid)
    requires NonNegative(lines)
    ensures Demand(lines, p) >= 0
    decreases |lines|
  {
    if lines != [] {
      DemandNonNegative(lines[1..], p);
    }
  }

  // ---------------------------------------------------------------- allocate

  /** A successful allocation reserves exactly the demand of every product and touches no `quantity`. */
  lemma {:induction false} AllocatedShape(t: Table, lines: seq<OrderItem>)
    requires AllocateAll(t, lines).Some?
    ensures ReservesDemand(t, lines, AllocateAll(t, lines).value)
    decreases |lines|
  {
    if lines != [] {
      var p0, q := lines[0].productId, lines[0].quantity;
      var row := RowFor(t, p0);
      var t' := t[p0 := row.(reservedQuantity := row.reservedQuantity + q)];
      AllocatedShape(t', lines[1..]);
      var r := AllocateAll(t, lines).value;
      assert r == AllocateAll(t', lines[1..]).value;
      forall p | p in r
        ensures r[p] == Item(RowFor(t, p).quantity, RowFor(t, p).reservedQuantity + Demand(lines, p))
      {
        assert Demand(lines, p) == (if p == p0 then q else 0) + Demand(lines[1..], p);
      }
    }
  }

  /**
   * With non-negative requests, an allocation succeeds exactly when every product's total
   * demand fits in what is available for it (a new product counting as 100 available).
   */
  lemma {:induction false} AllocateSucceedsIff(t: Table, lines: seq<OrderItem>)
    requires NonNegative(lines)
    ensures AllocateAll(t, lines).Some? <==>
            forall p :: p in ProductIds(lines) ==> Demand(lines, p) <= Available(RowFor(t, p))
    decreases |lines|
  {
    if lines != [] {
      var p0, q := lines[0].productId, lines[0].quantity;
      var rest := lines[1..];
      var row := RowFor(t, p0);
      assert NonNegative(rest) by {
        forall i | 0 <= i < |rest| ensures rest[i].quantity >= 0 {
          assert rest[i] == lines[i + 1];
        }
      }
      assert q >= 0 by { assert lines[0].quantity >= 0; }
      assert Demand(lines, p0) == q + Demand(rest, p0);
      DemandNonNegative(rest, p0);
      if Available(row) < q {
        assert p0 in ProductIds(lines) && Demand(lines, p0) > Available(RowFor(t, p0));
      } else {
        var t' := t[p0 := row.(reservedQuantity := row.reservedQuantity + q)];
        AllocateSucceedsIff(t', rest);
        assert AllocateAll(t, lines) == AllocateAll(t', rest);
        assert forall p :: p in ProductIds(rest) && p != p0 ==>
            (Demand(rest, p) <= Available(RowFor(t', p)) <==> Demand(lines, p) <= Available(RowFor(t, p)));
        if p0 !in ProductIds(rest) {
          DemandOutside(rest, p0);
        }
        assert ProductIds(lines) == {p0} + ProductIds(rest);
        if forall p :: p in ProductIds(rest) ==> Demand(rest, p) <= Available(RowFor(t', p)) {
          forall p | p in ProductIds(lines) ensures Demand(lines, p) <= Available(RowFor(t, p)) {
            if p != p0 {
              assert p in ProductIds(rest);
            }
          }
        } else {
          var p :| p in ProductIds(rest) && Demand(rest, p) > Available(RowFor(t', p));
          assert p in ProductIds(lines);
        }
      }
    }
  }

  /** Allocation from valid rows with non-negative requests leaves every row valid, in range for a C# `int`. */
  lemma AllocatePreservesValid(t: Table, lines: seq<OrderItem>)
    requires ValidTable(t) && NonNegative(lines)
    requires AllocateAll(t, lines).Some?
    ensures ValidTable(AllocateAll(t, lines).value)
  {
    var r := AllocateAll(t, lines).value;
    AllocatedShape(t, lines);
    AllocateSucceedsIff(t, lines);
    forall p | p in r ensures ValidRow(r[p]) {
      DemandNonNegative(lines, p);
      if p !in ProductIds(lines) {
        DemandOutside(lines, p);
      }
    }
  }

  /** No row has more reserved than it has on hand. */
  predicate Bounded(t: Table) {
    forall p :: p in t ==> t[p].reservedQuantity <= t[p].quantity
  }

  /**
   * With non-negative requests, a successful allocation leaves every product of the order
   * with no more reserved than on hand, whatever its row held before, and every other row
   * as it was; so a table with no over-reserved row keeps none.
   */
  lemma AllocateKeepsBounded(t: Table, lines: seq<OrderItem>)
    requires NonNegative(lines)
    requires AllocateAll(t, lines).Some?
    ensures var r := AllocateAll(t, lines).value;
            forall p :: p in ProductIds(lines) ==> p in r && r[p].reservedQuantity <= r[p].quantity
    ensures var r := AllocateAll(t, lines).value;
            forall p :: p in t && p !in ProductIds(lines) ==> p in r && r[p] == t[p]
    ensures Bounded(t) ==> Bounded(AllocateAll(t, lines).value)
  {
    var r := AllocateAll(t, lines).value;
    AllocatedShape(t, lines);
    AllocateSucceedsIff(t, lines);
    forall p | p in t && p !in ProductIds(lines) ensures p in r && r[p] == t[p] {
      DemandOutside(lines, p);
    }
  }

  // ---------------------------------------------------------------- commit and release

  /** Commit keeps the set of rows and lowers both counters of each by its total demand. */
  lemma {:induction false} CommitShape(t: Table, lines: seq<OrderItem>)
    ensures CommitAll(t, lines).Keys == t.Keys
    ensures forall p :: p in t ==>
      CommitAll(t, lines)[p] == Item(t[p].quantity - Demand(lines, p), t[p].reservedQuantity - Demand(lines, p))
    decreases |lines|
  {
    if lines != [] {
      var t' := CommitLine(t, lines[0]);
      CommitShape(t', lines[1..]);
      forall p | p in t
        ensures CommitAll(t, lines)[p] == Item(t[p].quantity - Demand(lines, p), t[p].reservedQuantity - Demand(lines, p))
      {
        assert Demand(lines, p) == (if lines[0].productId == p then lines[0].quantity else 0) + Demand(lines[1..], p);
      }
    }
  }

  /** Commit never changes what is available to new orders. */
  lemma CommitKeepsAvailable(t: Table, lines: seq<OrderItem>)
    ensures forall p :: p in t ==> p in CommitAll(t, lines) && Available(CommitAll(t, lines)[p]) == Available(t[p])
  {
    CommitShape(t, lines);
  }

  /** Commit leaves every row that had no more reserved than on hand so, whatever it subtracts. */
  lemma CommitKeepsBounded(t: Table, lines: seq<OrderItem>)
    ensures forall p :: p in t && t[p].reservedQuantity <= t[p].quantity ==>
      p in CommitAll(t, lines) && CommitAll(t, lines)[p].reservedQuantity <= CommitAll(t, lines)[p].quantity
    ensures Bounded(t) ==> Bounded(CommitAll(t, lines))
  {
    CommitShape(t, lines);
  }

  /** Release keeps the set of rows and every `quantity`, and lowers each reservation by its total demand. */
  lemma {:induction false} ReleaseShape(t: Table, lines: seq<OrderItem>)
    ensures ReleaseAll(t, lines).Keys == t.Keys
    ensures forall p :: p in t ==>
      ReleaseAll(t, lines)[p] == Item(t[p].quantity, t[p].reservedQuantity - Demand(lines, p))
    decreases |lines|
  {
    if lines != [] {
      var t' := ReleaseLine(t, lines[0]);
      ReleaseShape(t', lines[1..]);
      forall p | p in t
        ensures ReleaseAll(t, lines)[p] == Item(t[p].quantity, t[p].reservedQuantity - Demand(lines, p))
      {
        assert Demand(lines, p) == (if lines[0].productId == p then lines[0].quantity else 0) + Demand(lines[1..], p);
      }
    }
  }

  /** With non-negative requests, Release leaves every row that had no more reserved than on hand so. */
  lemma ReleaseKeepsBounded(t: Table, lines: seq<OrderItem>)
    requires NonNegative(lines)
    ensures forall p :: p in t && t[p].reservedQuantity <= t[p].quantity ==>
      p in ReleaseAll(t, lines) && ReleaseAll(t, lines)[p].reservedQuantity <= ReleaseAll(t, lines)[p].quantity
    ensures Bounded(t) ==> Bounded(ReleaseAll(t, lines))
  {
    ReleaseShape(t, lines);
    forall p | p in t {
      DemandNonNegative(lines, p);
    }
  }

  /**
   * Releasing what was just allocated gives back every reservation: the result is the
   * original table plus the rows provisioned for unknown products, still at 100/0.
   */
  lemma ReleaseUndoesAllocate(t: Table, lines: seq<OrderItem>)
    requires AllocateAll(t, lines).Some?
    ensures ReleaseAll(AllocateAll(t, lines).value, lines) == Provision(t, lines)
  {
    var r := AllocateAll(t, lines).value;
    AllocatedShape(t, lines);
    ReleaseShape(r, lines);
    var back := ReleaseAll(r, lines);
    assert back.Keys == Provision(t, lines).Keys;
    forall p | p in back ensures back[p] == Provision(t, lines)[p] {
    }
  }

  /** Neither Commit nor Release is idempotent: a second application subtracts the demand again. */
  lemma CommitTwiceSubtractsTwice(t: Table, lines: seq<OrderItem>)
    ensures CommitAll(CommitAll(t, lines), lines).Keys == t.Keys
    ensures forall p :: p in t ==>
      CommitAll(CommitAll(t, lines), lines)[p] ==
        Item(t[p].quantity - 2 * Demand(lines, p), t[p].reservedQuantity - 2 * Demand(lines, p))
  {
    CommitShape(t, lines);
    CommitShape(CommitAll(t, lines), lines);
  }

  lemma ReleaseTwiceSubtractsTwice(t: Table, lines: seq<OrderItem>)
    ensures ReleaseAll(ReleaseAll(t, lines), lines).Keys == t.Keys
    ensures forall p :: p in t ==>
      ReleaseAll(ReleaseAll(t, lines), lines)[p] ==
        Item(t[p].quantity, t[p].reservedQuantity - 2 * Demand(lines, p))
  {
    ReleaseShape(t, lines);
    ReleaseShape(ReleaseAll(t, lines), lines);
  }

  /**
   * After a successful allocation, a duplicated Commit drives below zero the reservation
   * of any product whose earlier reservation was smaller than this order's demand (in
   * particular any product with no other reservation); no bound check stops it.
   */
  lemma DuplicateCommitAfterAllocateGoesNegative(t: Table, lines: seq<OrderItem>, p: Guid)
    requires AllocateAll(t, lines).Some?
    requires p in ProductIds(lines) && RowFor(t, p).reservedQuantity < Demand(lines, p)
    ensures var twice := CommitAll(CommitAll(AllocateAll(t, lines).value, lines), lines);
            p in twice && twice[p].reservedQuantity < 0
  {
    var r := AllocateAll(t, lines).value;
    AllocatedShape(t, lines);
    CommitTwiceSubtractsTwice(r, lines);
  }
}
