/**
 * Scan records and the aggregate shown as "registered N (total M)":
 * `unique` is the number of distinct identifiers in the store and `total`
 * the number of records, both recomputed from the whole store on every
 * refresh.
 */
module Items {
  import opened Payload

  /** One persisted scan: the six-digit identifier and an opaque timestamp string. */
  datatype Item = Item(id: string, timestamp: string)

  predicate WellFormed(x: Item) {
    IsIdentifier(x.id)
  }

  predicate AllWellFormed(items: seq<Item>) {
    forall k :: 0 <= k < |items| ==> WellFormed(items[k])
  }

  /** `new Set(items.map(i => i.id))` */
  function Ids(items: seq<Item>): set<string> {
    set k | 0 <= k < |items| :: items[k].id
  }

  lemma IdsAppend(items: seq<Item>, x: Item)
    ensures Ids(items + [x]) == Ids(items) + {x.id}
  {
    var both := items + [x];
    forall id | id in Ids(both) ensures id in Ids(items) + {x.id} {
      var k :| 0 <= k < |both| && both[k].id == id;
      if k < |items| { assert items[k] == both[k]; }
    }
    forall id | id in Ids(items) ensures id in Ids(both) {
      var k :| 0 <= k < |items| && items[k].id == id;
      assert both[k] == items[k];
    }
    assert both[|items|] == x;
  }

  /** There are never more distinct identifiers than records. */
  lemma {:induction false} IdsBound(items: seq<Item>)
    ensures |Ids(items)| <= |items|
    decreases |items|
  {
    if |items| == 0 {
      assert Ids(items) == {};
    } else {
      var init := items[..|items| - 1];
      assert init + [items[|items| - 1]] == items;
      IdsAppend(init, items[|items| - 1]);
      IdsBound(init);
    }
  }

  /** The pair displayed by `showItemNumber`. */
  datatype Counts = Counts(unique: nat, total: nat)

  /** `showItemNumber`: read the whole store and count distinct identifiers and records. */
  function ItemNumber(items: seq<Item>): (c: Counts)
    ensures c.unique <= c.total
    ensures c.total == |items|
    ensures c.unique == 0 <==> items == []
  {
    IdsBound(items);
    assert |items| > 0 ==> items[0].id in Ids(items);
    Counts(|Ids(items)|, |items|)
  }

  /**
   * An independent reference for `unique`: a counter kept while records are
   * appended one by one, increased only when the identifier is new.
   */
  function CountedUnique(items: seq<Item>): nat
    decreases |items|
  {
    if |items| == 0 then 0
    else
      var init := items[..|items| - 1];
      CountedUnique(init) + (if items[|items| - 1].id in Ids(init) then 0 else 1)
  }

  /** Recomputing from the store agrees with an incrementally maintained counter. */
  lemma {:induction false} ReadThroughMatchesCounter(items: seq<Item>)
    ensures ItemNumber(items).unique == CountedUnique(items)
    decreases |items|
  {
    if |items| == 0 {
      assert Ids(items) == {};
    } else {
      var init := items[..|items| - 1];
      var x := items[|items| - 1];
      assert init + [x] == items;
      IdsAppend(init, x);
      ReadThroughMatchesCounter(init);
      if x.id in Ids(init) {
        assert Ids(items) == Ids(init);
      } else {
        assert |Ids(items)| == |Ids(init)| + 1;
      }
    }
  }

  /** Appending a record whose identifier is already stored raises `total` only. */
  lemma AppendKnownId(items: seq<Item>, x: Item)
    requires x.id in Ids(items)
    ensures ItemNumber(items + [x]) == Counts(ItemNumber(items).unique, ItemNumber(items).total + 1)
  {
    IdsAppend(items, x);
    assert Ids(items) + {x.id} == Ids(items);
  }

  /** Appending a record with a new identifier raises both counts by one. */
  lemma AppendNewId(items: seq<Item>, x: Item)
    requires x.id !in Ids(items)
    ensures ItemNumber(items + [x]) == Counts(ItemNumber(items).unique + 1, ItemNumber(items).total + 1)
  {
    IdsAppend(items, x);
  }
}
