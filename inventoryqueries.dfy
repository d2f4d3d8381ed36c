/**
 * The JPQL stock reports of the Spring Data inventory repository as
 * filters over the stored records, proved to agree with the entity's own
 * stock predicates restricted to active records.
 */
module InventoryQueries {
  import opened InventoryRules
  import opened InventoryStore

  /** i.currentQuantity < i.minimumStockLevel AND i.activityStatus.status = true */
  function FindBelowMinimumStock(rows: map<int, StockView>): (r: set<int>)
    ensures forall k :: k in r <==> k in rows && rows[k].active && IsBelowMinimumStock(rows[k])
  {
    set k | k in rows && rows[k].currentQuantity < rows[k].minimumStockLevel && rows[k].active
  }

  /** i.currentQuantity <= i.reorderPoint AND i.activityStatus.status = true */
  function FindAtReorderPoint(rows: map<int, StockView>): (r: set<int>)
    ensures forall k :: k in r <==> k in rows && rows[k].active && IsAtReorderPoint(rows[k])
  {
    set k | k in rows && rows[k].currentQuantity <= rows[k].reorderPoint && rows[k].active
  }

  /** i.currentQuantity = 0 AND i.activityStatus.status = true */
  function FindOutOfStock(rows: map<int, StockView>): (r: set<int>)
    ensures forall k :: k in r <==> k in rows && rows[k].active && IsOutOfStock(rows[k])
  {
    set k | k in rows && rows[k].currentQuantity == 0 && rows[k].active
  }

  /** i.currentQuantity > i.maximumStockLevel AND i.activityStatus.status = true */
  function FindAboveMaximumStock(rows: map<int, StockView>): (r: set<int>)
    ensures forall k :: k in r <==> k in rows && rows[k].active && IsAboveMaximumStock(rows[k])
  {
    set k | k in rows && rows[k].currentQuantity > rows[k].maximumStockLevel && rows[k].active
  }

  /** findByActivityStatus / countByActivityStatus. */
  function FindByActivityStatus(rows: map<int, StockView>, active: bool): set<int> {
    set k | k in rows && rows[k].active == active
  }

  /** In a valid table every out-of-stock record is at its reorder point, and no record is both under- and over-stocked. */
  lemma StockReportsAgree(t: StockTable)
    requires TableValid(t)
    ensures FindOutOfStock(t.rows) <= FindAtReorderPoint(t.rows)
    ensures FindBelowMinimumStock(t.rows) * FindAboveMaximumStock(t.rows) == {}
  {
    forall k | k in FindOutOfStock(t.rows)
      ensures k in FindAtReorderPoint(t.rows)
    {
      StockPredicatesAgree(t.rows[k]);
    }
    forall k | k in FindBelowMinimumStock(t.rows)
      ensures k !in FindAboveMaximumStock(t.rows)
    {
      StockPredicatesAgree(t.rows[k]);
    }
  }

  /** The four reports only ever list active records; the active and inactive lists split the table. */
  lemma ReportsListActiveRecords(rows: map<int, StockView>)
    ensures FindBelowMinimumStock(rows) + FindAtReorderPoint(rows) + FindOutOfStock(rows) + FindAboveMaximumStock(rows)
            <= FindByActivityStatus(rows, true)
    ensures FindByActivityStatus(rows, true) + FindByActivityStatus(rows, false) == rows.Keys
    ensures FindByActivityStatus(rows, true) * FindByActivityStatus(rows, false) == {}
  {
  }
}
