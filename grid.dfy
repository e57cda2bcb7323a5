/**
 * The main window's handling of a received batch (MainWindow.xaml.cs):
 * each received item is looked up by name in the grid's item source; an
 * unknown name is appended, a known one whose value is null or different
 * gets the new value, and the grid is refreshed when anything was
 * appended or assigned. Values are compared with Equals, modelled as
 * equality of V.
 */
module Grid {
  import opened Wrappers

  /** A grid row: a nullable name and a nullable value. */
  datatype GridData<V> = GridData(name: Option<string>, value: Option<V>)

  /** The grid after a batch, and whether a refresh is due. */
  datatype Upserted<V> = Upserted(grid: seq<GridData<V>>, changed: bool)

  /** The index of the first row with the given name (`Where(...).FirstOrDefault()`). */
  function FirstIndex<V>(g: seq<GridData<V>>, name: Option<string>): (r: Option<nat>)
    ensures r.Some? ==> r.value < |g| && g[r.value].name == name
    ensures r.Some? ==> forall j :: 0 <= j < r.value ==> g[j].name != name
    ensures r.None? ==> forall j :: 0 <= j < |g| ==> g[j].name != name
  {
    if |g| == 0 then None
    else if g[0].name == name then Some(0)
    else
      match FirstIndex(g[1..], name)
      case None => None
      case Some(i) => Some(i + 1)
  }

  /** A row of the name with none before it is the first. */
  lemma FirstIndexAt<V>(g: seq<GridData<V>>, name: Option<string>, i: nat)
    requires i < |g| && g[i].name == name
    requires forall j :: 0 <= j < i ==> g[j].name != name
    ensures FirstIndex(g, name) == Some(i)
  {
  }

  /** The names of the rows. */
  function Names<V>(g: seq<GridData<V>>): set<Option<string>>
  {
    set i | 0 <= i < |g| :: g[i].name
  }

  /** One received item: append it, or assign its value to the first row of its name. */
  function UpsertOne<V(==)>(g: seq<GridData<V>>, item: GridData<V>): Upserted<V>
  {
    match FirstIndex(g, item.name)
    case None => Upserted(g + [item], true)
    case Some(i) =>
      if g[i].value.None? || g[i].value != item.value then
        Upserted(g[i := g[i].(value := item.value)], true)
      else Upserted(g, false)
  }

  /** The whole batch, item by item in order; a refresh is due if any item was appended or assigned. */
  function UpsertAll<V(==)>(g: seq<GridData<V>>, items: seq<GridData<V>>): Upserted<V>
    decreases |items|
  {
    if |items| == 0 then Upserted(g, false)
    else
      var p := UpsertAll(g, items[..|items| - 1]);
      var q := UpsertOne(p.grid, items[|items| - 1]);
      Upserted(q.grid, p.changed || q.changed)
  }

  /** The value of the last received item with the given name, if any. */
  function LastValue<V>(items: seq<GridData<V>>, name: Option<string>): Option<Option<V>>
    decreases |items|
  {
    if |items| == 0 then None
    else if items[|items| - 1].name == name then Some(items[|items| - 1].value)
    else LastValue(items[..|items| - 1], name)
  }

  /** The names received in a batch. */
  function ReceivedNames<V>(items: seq<GridData<V>>): set<Option<string>>
  {
    set k | 0 <= k < |items| :: items[k].name
  }

  // ---------------------------------------------------------------------
  // One item.

  /**
   * The first row of a name is where it was as long as the rows before
   * keep their names and anything added does not carry it.
   */
  lemma FirstIndexStable<V>(g: seq<GridData<V>>, h: seq<GridData<V>>, name: Option<string>)
    requires |g| <= |h|
    requires forall i :: 0 <= i < |g| ==> h[i].name == g[i].name
    requires forall i :: |g| <= i < |h| ==> h[i].name != name
    ensures FirstIndex(h, name) == FirstIndex(g, name)
  {
  }

  /**
   * One item keeps every row's name and position, touches only rows of
   * its own name, grows the grid exactly when its name is new (appending
   * the item itself), and leaves its value in the first row of its name.
   */
  lemma UpsertOneFacts<V>(g: seq<GridData<V>>, item: GridData<V>)
    ensures var r := UpsertOne(g, item).grid;
      |g| <= |r| <= |g| + 1 &&
      (forall i :: 0 <= i < |g| ==> r[i].name == g[i].name) &&
      (forall i :: 0 <= i < |g| && g[i].name != item.name ==> r[i] == g[i]) &&
      (|r| == |g| + 1 <==> item.name !in Names(g)) &&
      (|r| == |g| + 1 ==> r[|g|] == item)
    ensures var r := UpsertOne(g, item).grid;
      FirstIndex(r, item.name).Some? && r[FirstIndex(r, item.name).value].value == item.value
    ensures Names(UpsertOne(g, item).grid) == Names(g) + {item.name}
    ensures !UpsertOne(g, item).changed ==> UpsertOne(g, item).grid == g
  {
    var r := UpsertOne(g, item).grid;
    match FirstIndex(g, item.name)
    case None =>
      assert item.name !in Names(g);
      assert r[|g|] == item;
      FirstIndexAt(r, item.name, |g|);
      assert Names(r) == Names(g) + {item.name} by {
        forall n | n in Names(r) ensures n in Names(g) + {item.name} {
          var i :| 0 <= i < |r| && r[i].name == n;
          if i < |g| {
            assert g[i].name == n;
          }
        }
        forall n | n in Names(g) ensures n in Names(r) {
          var i :| 0 <= i < |g| && g[i].name == n;
          assert r[i].name == n;
        }
      }
    case Some(i) =>
      assert item.name in Names(g);
      FirstIndexStable(g, r, item.name);
      assert Names(r) == Names(g) by {
        forall n | n in Names(r) ensures n in Names(g) {
          var k :| 0 <= k < |r| && r[k].name == n;
          assert g[k].name == n;
        }
        forall n | n in Names(g) ensures n in Names(r) {
          var k :| 0 <= k < |g| && g[k].name == n;
          assert r[k].name == n;
        }
      }
  }

  /** A row holding null is always assigned, so it asks for a refresh even when the item's value is null too. */
  lemma NullValueRefreshes<V>(g: seq<GridData<V>>, item: GridData<V>)
    requires FirstIndex(g, item.name).Some? && g[FirstIndex(g, item.name).value].value.None?
    ensures UpsertOne(g, item).changed
    ensures item.value.None? ==> UpsertOne(g, item).grid == g
  {
    var i := FirstIndex(g, item.name).value;
    if item.value.None? {
      assert g[i := g[i].(value := item.value)] == g;
    }
  }

  /** The first row of the item's name already holds the item's non-null value: nothing to do. */
  predicate Shown<V(==)>(g: seq<GridData<V>>, item: GridData<V>)
  {
    FirstIndex(g, item.name).Some? &&
    g[FirstIndex(g, item.name).value].value.Some? &&
    g[FirstIndex(g, item.name).value].value == item.value
  }

  /** One item asks for a refresh exactly when its name is new, its row holds null, or the value differs. */
  lemma UpsertOneRefreshIff<V>(g: seq<GridData<V>>, item: GridData<V>)
    ensures UpsertOne(g, item).changed <==>
      FirstIndex(g, item.name).None? ||
      g[FirstIndex(g, item.name).value].value.None? ||
      g[FirstIndex(g, item.name).value].value != item.value
    ensures UpsertOne(g, item).changed <==> !Shown(g, item)
    ensures Shown(g, item) ==> UpsertOne(g, item).grid == g
  {
  }

  // ---------------------------------------------------------------------
  // The whole batch.

  /**
   * A batch never removes or reorders rows, keeps every row's name, and
   * leaves the rows whose names were not received exactly as they were.
   */
  lemma {:induction false} UpsertAllKeepsRows<V>(g: seq<GridData<V>>, items: seq<GridData<V>>)
    ensures RowsKept(g, UpsertAll(g, items).grid, ReceivedNames(items))
    decreases |items|
  {
    if |items| == 0 {
      assert ReceivedNames(items) == {};
    } else {
      var m := |items| - 1;
      var p := UpsertAll(g, items[..m]).grid;
      UpsertAllKeepsRows(g, items[..m]);
      UpsertOneFacts(p, items[m]);
      ReceivedNamesSnoc(items);
      RowsKeptStep(g, p, UpsertOne(p, items[m]).grid, ReceivedNames(items[..m]), items[m].name);
    }
  }

  /**
   * r keeps g's rows in place with their names, and the rows whose names
   * are not in touched exactly as they were.
   */
  ghost predicate RowsKept<V>(g: seq<GridData<V>>, r: seq<GridData<V>>, touched: set<Option<string>>)
  {
    |g| <= |r| &&
    (forall i :: 0 <= i < |g| ==> r[i].name == g[i].name) &&
    (forall i :: 0 <= i < |g| && g[i].name !in touched ==> r[i] == g[i])
  }

  /** One more step that keeps names and touches only rows named n. */
  lemma RowsKeptStep<V>(g: seq<GridData<V>>, p: seq<GridData<V>>, q: seq<GridData<V>>,
                        touched: set<Option<string>>, n: Option<string>)
    requires RowsKept(g, p, touched)
    requires |p| <= |q|
    requires forall i :: 0 <= i < |p| ==> q[i].name == p[i].name
    requires forall i :: 0 <= i < |p| && p[i].name != n ==> q[i] == p[i]
    ensures RowsKept(g, q, touched + {n})
  {
  }

  lemma ReceivedNamesSnoc<V>(items: seq<GridData<V>>)
    requires |items| > 0
    ensures ReceivedNames(items) == ReceivedNames(items[..|items| - 1]) + {items[|items| - 1].name}
  {
    var m := |items| - 1;
    forall n | n in ReceivedNames(items) ensures n in ReceivedNames(items[..m]) + {items[m].name} {
      var k :| 0 <= k < |items| && items[k].name == n;
      if k < m {
        assert items[..m][k].name == n;
      }
    }
    forall n | n in ReceivedNames(items[..m]) ensures n in ReceivedNames(items) {
      var k :| 0 <= k < m && items[..m][k].name == n;
      assert items[k].name == n;
    }
  }

  /** After a batch the first row of every received name holds the value of the last item of that name. */
  lemma {:induction false} LastValueWins<V>(g: seq<GridData<V>>, items: seq<GridData<V>>, name: Option<string>)
    requires LastValue(items, name).Some?
    ensures var r := UpsertAll(g, items).grid;
      FirstIndex(r, name).Some? && r[FirstIndex(r, name).value].value == LastValue(items, name).value
    decreases |items|
  {
    var m := |items| - 1;
    var p := UpsertAll(g, items[..m]);
    UpsertOneFacts(p.grid, items[m]);
    if items[m].name != name {
      LastValueWins(g, items[..m], name);
      var r := UpsertAll(g, items).grid;
      var f := FirstIndex(p.grid, name).value;
      FirstIndexStable(p.grid, r, name);
      assert r[f] == p.grid[f];
    }
  }

  /** The rows' names after a batch are the old ones and the received ones. */
  lemma {:induction false} UpsertAllNames<V>(g: seq<GridData<V>>, items: seq<GridData<V>>)
    ensures Names(UpsertAll(g, items).grid) == Names(g) + ReceivedNames(items)
    decreases |items|
  {
    if |items| == 0 {
      assert ReceivedNames(items) == {};
    } else {
      var m := |items| - 1;
      UpsertAllNames(g, items[..m]);
      UpsertOneFacts(UpsertAll(g, items[..m]).grid, items[m]);
      ReceivedNamesSnoc(items);
    }
  }

  /** The received names the grid did not have before the batch. */
  function NewNames<V>(g: seq<GridData<V>>, items: seq<GridData<V>>): set<Option<string>>
  {
    ReceivedNames(items) - Names(g)
  }

  /** The grid grows by the number of distinct received names it did not have. */
  lemma {:induction false} UpsertAllGrowth<V>(g: seq<GridData<V>>, items: seq<GridData<V>>)
    ensures |UpsertAll(g, items).grid| == |g| + |NewNames(g, items)|
    decreases |items|
  {
    if |items| == 0 {
      assert NewNames(g, items) == {};
    } else {
      var m := |items| - 1;
      var p := UpsertAll(g, items[..m]).grid;
      UpsertAllGrowth(g, items[..m]);
      UpsertAllNames(g, items[..m]);
      UpsertOneSize(p, items[m]);
      ReceivedNamesSnoc(items);
      NewNamesStep(Names(g), ReceivedNames(items[..m]), items[m].name);
    }
  }

  /** One item adds a row exactly when its name is new. */
  lemma UpsertOneSize<V>(g: seq<GridData<V>>, item: GridData<V>)
    ensures |UpsertOne(g, item).grid| == |g| + (if item.name in Names(g) then 0 else 1)
  {
    UpsertOneFacts(g, item);
  }

  /** Receiving n adds one new name exactly when neither the grid nor the earlier items had it. */
  lemma NewNamesStep(known: set<Option<string>>, received: set<Option<string>>, n: Option<string>)
    ensures |(received + {n}) - known| == |received - known| + (if n in known + received then 0 else 1)
  {
    if n !in known + received {
      assert (received + {n}) - known == (received - known) + {n};
    } else {
      assert (received + {n}) - known == received - known;
    }
  }

  /** A batch that asks for no refresh has left the grid as it was. */
  lemma {:induction false} UnchangedWithoutRefresh<V>(g: seq<GridData<V>>, items: seq<GridData<V>>)
    ensures !UpsertAll(g, items).changed ==> UpsertAll(g, items).grid == g
    decreases |items|
  {
    if |items| > 0 {
      var m := |items| - 1;
      UnchangedWithoutRefresh(g, items[..m]);
      UpsertOneFacts(UpsertAll(g, items[..m]).grid, items[m]);
    }
  }

  /** Item k of the batch is not already shown by the grid the items before it left. */
  predicate AssignsAt<V(==)>(g: seq<GridData<V>>, items: seq<GridData<V>>, k: nat)
    requires k < |items|
  {
    !Shown(UpsertAll(g, items[..k]).grid, items[k])
  }

  /** Whether item k assigns does not depend on the items after it. */
  lemma AssignsAtPrefix<V>(g: seq<GridData<V>>, items: seq<GridData<V>>, m: nat, k: nat)
    requires k < m <= |items|
    ensures AssignsAt(g, items[..m], k) == AssignsAt(g, items, k)
  {
    assert items[..m][..k] == items[..k];
  }

  /** The last item of a batch refreshes when the batch before it did or when it is not shown. */
  lemma UpsertAllSnoc<V>(g: seq<GridData<V>>, items: seq<GridData<V>>)
    requires |items| > 0
    ensures var p := UpsertAll(g, items[..|items| - 1]);
      UpsertAll(g, items).changed == (p.changed || !Shown(p.grid, items[|items| - 1])) &&
      UpsertAll(g, items).grid == UpsertOne(p.grid, items[|items| - 1]).grid
  {
    UpsertOneRefreshIff(UpsertAll(g, items[..|items| - 1]).grid, items[|items| - 1]);
  }

  /**
   * A batch asks for a refresh exactly when some item, met in turn, was
   * not already shown by the grid the items before it left.
   */
  lemma {:induction false} UpsertAllRefreshIff<V>(g: seq<GridData<V>>, items: seq<GridData<V>>)
    ensures UpsertAll(g, items).changed <==> exists k :: 0 <= k < |items| && AssignsAt(g, items, k)
    decreases |items|
  {
    if |items| > 0 {
      var m := |items| - 1;
      var p := UpsertAll(g, items[..m]);
      UpsertAllRefreshIff(g, items[..m]);
      UpsertAllSnoc(g, items);
      assert AssignsAt(g, items, m) == !Shown(p.grid, items[m]);
      if p.changed {
        var k :| 0 <= k < m && AssignsAt(g, items[..m], k);
        AssignsAtPrefix(g, items, m, k);
      } else {
        forall k | 0 <= k < m
          ensures !AssignsAt(g, items, k)
        {
          AssignsAtPrefix(g, items, m, k);
        }
      }
    }
  }

  /** A batch whose every item the grid already shows asks for no refresh. */
  lemma {:induction false} AllShownNoRefresh<V>(g: seq<GridData<V>>, items: seq<GridData<V>>)
    requires forall k :: 0 <= k < |items| ==> Shown(g, items[k])
    ensures !UpsertAll(g, items).changed && UpsertAll(g, items).grid == g
    decreases |items|
  {
    if |items| > 0 {
      var m := |items| - 1;
      forall k | 0 <= k < m
        ensures Shown(g, items[..m][k])
      {
        assert items[..m][k] == items[k];
      }
      AllShownNoRefresh(g, items[..m]);
      UpsertAllSnoc(g, items);
      UpsertOneRefreshIff(g, items[m]);
    }
  }

  // ---------------------------------------------------------------------
  // The grid's item source as a mutable list.

  class GridView<V(==)> {
    /** gridDataItemSource; the rows are updated in place by index. */
    var items: seq<GridData<V>>

    constructor ()
      ensures items == []
    {
      items := [];
    }

    /** The search for the first row with the name. */
    method FindFirst(name: Option<string>) returns (idx: Option<nat>)
      ensures idx == FirstIndex(items, name)
    {
      var i := 0;
      while i < |items|
        invariant 0 <= i <= |items|
        invariant forall j :: 0 <= j < i ==> items[j].name != name
      {
        if items[i].name == name {
          FirstIndexAt(items, name, i);
          return Some(i);
        }
        i := i + 1;
      }
      return None;
    }

    /**
     * The handler of a received batch; anyChanged is whether the grid is
     * refreshed afterwards.
     */
    method OnGridData(receivedDataList: seq<GridData<V>>) returns (anyChanged: bool)
      modifies this
      ensures var u := UpsertAll(old(items), receivedDataList);
        items == u.grid && anyChanged == u.changed
    {
      anyChanged := false;
      for k := 0 to |receivedDataList|
        invariant var u := UpsertAll(old(items), receivedDataList[..k]);
          items == u.grid && anyChanged == u.changed
      {
        assert receivedDataList[..k + 1][..k] == receivedDataList[..k];
        var receivedData := receivedDataList[k];
        var gridData := FindFirst(receivedData.name);
        if gridData.None? {
          items := items + [receivedData];
          anyChanged := true;
        } else {
          var i := gridData.value;
          if items[i].value.None? || items[i].value != receivedData.value {
            items := items[i := items[i].(value := receivedData.value)];
            anyChanged := true;
          }
        }
      }
      assert receivedDataList[..|receivedDataList|] == receivedDataList;
    }
  }
}
