/**
 * The inventory service (InventoryService/Services/InventoryService.cs): a table of rows
 * that its three operations update line by line. Allocation works on tracked rows and
 * saves them only if every line fits; Commit and Release save whatever the loop did.
 */
module Inventory {
  import opened Events
  import opened InventoryRules

  class InventoryService {
    /** The saved InventoryItems table. */
    var table: Table
    /** Every call made on the service, in order: the record of what the consumers asked for. */
    ghost var calls: seq<StoreCall>

    constructor (initial: Table)
      ensures table == initial && calls == []
    {
      table := initial;
      calls := [];
    }

    /**
     * AllocateAsync. Works on a copy of the table (the tracked entities); returns false
     * without saving at the first line that does not fit, otherwise saves and returns true.
     */
    method Allocate(orderId: Guid, items: seq<OrderItem>) returns (ok: bool)
      requires NewProductsDistinct(table, items)
      modifies this
      ensures ok == AllocateAll(old(table), items).Some?
      ensures table == Apply(old(table), AllocateCall(orderId, items))
      ensures !ok ==> table == old(table)
      ensures ok ==> ReservesDemand(old(table), items, table)
      ensures ok && NonNegative(items) && Bounded(old(table)) ==> Bounded(table)
      ensures ok && ValidTable(old(table)) && NonNegative(items) ==> ValidTable(table)
      ensures calls == old(calls) + [AllocateCall(orderId, items)]
    {
      calls := calls + [AllocateCall(orderId, items)];
      var tracked := table;
      for i := 0 to |items|
        invariant AllocateAll(table, items) == AllocateAll(tracked, items[i..])
      {
        var item := items[i];
        ghost var before := tracked;
        var row: Item;
        if item.productId in tracked {
          row := tracked[item.productId];
        } else {
          row := Item(AutoProvisionQuantity, 0);
          tracked := tracked[item.productId := row];
        }
        assert items[i..][0] == item && items[i..][1..] == items[i + 1..];
        if row.quantity - row.reservedQuantity < item.quantity {
          return false;
        }
        tracked := tracked[item.productId := row.(reservedQuantity := row.reservedQuantity + item.quantity)];
        assert row == RowFor(before, item.productId);
        assert tracked == before[item.productId := row.(reservedQuantity := row.reservedQuantity + item.quantity)];
      }
      assert items[|items|..] == [];
      AllocatedShape(table, items);
      if NonNegative(items) {
        AllocateKeepsBounded(table, items);
      }
      if ValidTable(table) && NonNegative(items) {
        AllocatePreservesValid(table, items);
      }
      table := tracked;
      return true;
    }

    /** CommitAsync: each known product loses the quantity from both counters; unknown ones are skipped. */
    method Commit(orderId: Guid, items: seq<OrderItem>)
      modifies this
      ensures table == CommitAll(old(table), items)
      ensures table.Keys == old(table).Keys
      ensures forall p :: p in old(table) ==> Available(table[p]) == Available(old(table)[p])
      ensures Bounded(old(table)) ==> Bounded(table)
      ensures calls == old(calls) + [CommitCall(orderId, items)]
    {
      calls := calls + [CommitCall(orderId, items)];
      for i := 0 to |items|
        invariant CommitAll(old(table), items) == CommitAll(table, items[i..])
        invariant calls == old(calls) + [CommitCall(orderId, items)]
      {
        var item := items[i];
        assert items[i..][0] == item && items[i..][1..] == items[i + 1..];
        if item.productId in table {
          var row := table[item.productId];
          table := table[item.productId := Item(row.quantity - item.quantity, row.reservedQuantity - item.quantity)];
        }
      }
      assert items[|items|..] == [];
      CommitShape(old(table), items);
      CommitKeepsBounded(old(table), items);
    }

    /** ReleaseAsync: each known product loses the quantity from its reservation only. */
    method Release(orderId: Guid, items: seq<OrderItem>)
      modifies this
      ensures table == ReleaseAll(old(table), items)
      ensures table.Keys == old(table).Keys
      ensures forall p :: p in old(table) ==> table[p].quantity == old(table)[p].quantity
      ensures NonNegative(items) && Bounded(old(table)) ==> Bounded(table)
      ensures calls == old(calls) + [ReleaseCall(orderId, items)]
    {
      calls := calls + [ReleaseCall(orderId, items)];
      for i := 0 to |items|
        invariant ReleaseAll(old(table), items) == ReleaseAll(table, items[i..])
        invariant calls == old(calls) + [ReleaseCall(orderId, items)]
      {
        var item := items[i];
        assert items[i..][0] == item && items[i..][1..] == items[i + 1..];
        if item.productId in table {
          var row := table[item.productId];
          table := table[item.productId := row.(reservedQuantity := row.reservedQuantity - item.quantity)];
        }
      }
      assert items[|items|..] == [];
      ReleaseShape(old(table), items);
      if NonNegative(items) {
        ReleaseKeepsBounded(old(table), items);
      }
    }
  }
}
