/** The domain logic of the products page: the catalogue search, the quick stock
    adjustment (an adjustment move plus a direct update of the product), the
    create/edit guard, and the per-product move history. */
module ProductsPage {
  import opened Types
  import opened Text
  import opened Seqs
  import opened Accounting
  import opened Store

  const WarehouseStock: string := "WH/Stock"
  const AdjustmentLocation: string := "Inventory Adjustment"

  // ---------------------------------------------------------------------------
  // filteredProducts
  // ---------------------------------------------------------------------------

  predicate MatchesSearch(lowerTerm: string, p: Product) {
    Contains(Lower(p.name), lowerTerm) || Contains(Lower(p.sku), lowerTerm)
  }

  function ProductKept(term: string, showLowStock: bool): Product -> bool {
    (p: Product) => MatchesSearch(Lower(term), p) && (showLowStock ==> IsLowStock(p))
  }

  /** `filteredProducts`: the products, in store order, whose lower-cased name or
      SKU includes the lower-cased term and, with the toggle on, that are low on
      stock. */
  function FilteredProducts(ps: seq<Product>, term: string, showLowStock: bool): (r: seq<Product>)
    ensures |r| <= |ps|
    ensures forall p :: p in r <==> p in ps && MatchesSearch(Lower(term), p) && (showLowStock ==> IsLowStock(p))
  {
    Filter(ps, ProductKept(term, showLowStock))
  }

  /** A product is listed exactly when the lower-cased term occurs in its
      lower-cased name or SKU and, with the toggle on, it is at or below its
      minimum. */
  lemma {:induction false} FilteredProductsMembership(ps: seq<Product>, term: string, showLowStock: bool, p: Product)
    ensures p in FilteredProducts(ps, term, showLowStock) <==>
      && p in ps
      && ((exists k :: OccursAt(Lower(p.name), Lower(term), k)) || (exists k :: OccursAt(Lower(p.sku), Lower(term), k)))
      && (showLowStock ==> p.stockLevel <= p.minStock)
  {
    assert Contains(Lower(p.name), Lower(term)) <==> exists k :: OccursAt(Lower(p.name), Lower(term), k) by {
      ContainsIffOccurs(Lower(p.name), Lower(term));
    }
    assert Contains(Lower(p.sku), Lower(term)) <==> exists k :: OccursAt(Lower(p.sku), Lower(term), k) by {
      ContainsIffOccurs(Lower(p.sku), Lower(term));
    }
    assert ProductKept(term, showLowStock)(p) <==> MatchesSearch(Lower(term), p) && (showLowStock ==> IsLowStock(p));
    assert p in FilteredProducts(ps, term, showLowStock) <==> p in ps && ProductKept(term, showLowStock)(p);
  }

  /** With no term and the toggle off the whole catalogue is listed, in order. */
  lemma {:induction false} EmptySearchListsAll(ps: seq<Product>)
    ensures FilteredProducts(ps, "", false) == ps
  {
    forall i | 0 <= i < |ps| ensures ProductKept("", false)(ps[i]) {
      ContainsEmpty(Lower(ps[i].name));
    }
    FilterKeepsAll(ps, ProductKept("", false));
  }

  /** The low-stock view with no term lists as many products as the dashboard's
      low-stock count. */
  lemma {:induction false} LowStockViewMatchesKpi(ps: seq<Product>, ms: seq<StockMove>, today: string)
    ensures |FilteredProducts(ps, "", true)| == Kpis(ps, ms, today).lowStockItems
  {
    forall i | 0 <= i < |ps| ensures ProductKept("", true)(ps[i]) == IsLowStock(ps[i]) {
      ContainsEmpty(Lower(ps[i].name));
    }
    FilterAgree(ps, ProductKept("", true), IsLowStock);
  }

  /** The search ignores the case of the term. */
  lemma {:induction false} SearchIgnoresCase(ps: seq<Product>, term: string, showLowStock: bool)
    ensures FilteredProducts(ps, Lower(term), showLowStock) == FilteredProducts(ps, term, showLowStock)
  {
    LowerIdempotent(term);
    FilterAgree(ps, ProductKept(Lower(term), showLowStock), ProductKept(term, showLowStock));
  }

  // ---------------------------------------------------------------------------
  // Quick stock adjustment
  // ---------------------------------------------------------------------------

  /** The +/- buttons of the quantity dialog: the target never goes below zero. */
  function AdjustQty(prev: int, amount: int): (r: nat)
    ensures prev + amount >= 0 ==> r == prev + amount
    ensures prev + amount < 0 ==> r == 0
  {
    if prev + amount < 0 then 0 else prev + amount
  }

  function Abs(x: int): nat {
    if x < 0 then -x else x
  }

  /** The Done adjustment move that records a change of `diff` units. Ids, the
      reference suffix and the date come from the clock and are parameters. */
  function AdjustmentMove(p: Product, diff: int, moveId: string, refSuffix: string, date: string, lineId: string): (m: StockMove)
    ensures m.id == moveId && m.opType == Adjustment && m.status == Done && m.date == date
    ensures StartsWith(m.reference, "INV/ADJ/")
    ensures diff > 0 <==> m.sourceLocation == AdjustmentLocation && m.destLocation == WarehouseStock
    ensures diff <= 0 <==> m.sourceLocation == WarehouseStock && m.destLocation == AdjustmentLocation
    ensures |m.lines| == 1 && m.lines[0].productId == p.id && m.lines[0].quantity == Abs(diff)
    ensures m.lines[0].lotNumber.Some? <==> p.tracking != NoTracking
  {
    StockMove(
      moveId,
      "INV/ADJ/" + refSuffix,
      Adjustment,
      Done,
      None,
      None,
      if diff > 0 then AdjustmentLocation else WarehouseStock,
      if diff > 0 then WarehouseStock else AdjustmentLocation,
      date,
      [StockMoveLine(lineId, p.id, p.name, Abs(diff), if p.tracking != NoTracking then Some("Auto-Adj") else None)])
  }

  /** The breakdown after the direct update: the `WH/Stock` entry is shifted by
      `diff` and dropped once it is not positive; nothing else changes. */
  function ShiftedBreakdown(loc: map<string, int>, diff: int): (r: map<string, int>)
    ensures forall k :: k != WarehouseStock ==> (k in r <==> k in loc) && (k in r ==> r[k] == loc[k])
    ensures WarehouseStock in r <==> (if WarehouseStock in loc then loc[WarehouseStock] else 0) + diff > 0
    ensures WarehouseStock in r ==> r[WarehouseStock] == (if WarehouseStock in loc then loc[WarehouseStock] else 0) + diff
  {
    var v := (if WarehouseStock in loc then loc[WarehouseStock] else 0) + diff;
    if v <= 0 then loc - {WarehouseStock} else loc[WarehouseStock := v]
  }

  /** The record `updateProduct` receives: the dialog's snapshot with the target
      on-hand and the shifted breakdown. */
  function AdjustedProduct(p: Product, target: int): (r: Product)
    ensures r.(stockLevel := p.stockLevel, locationStock := p.locationStock) == p
    ensures r.stockLevel == target
    ensures forall k :: k != WarehouseStock ==> (k in r.locationStock <==> k in p.locationStock)
    ensures forall k :: k != WarehouseStock && k in p.locationStock ==> r.locationStock[k] == p.locationStock[k]
  {
    p.(stockLevel := target, locationStock := ShiftedBreakdown(p.locationStock, target - p.stockLevel))
  }

  /** `handleQtyUpdate`: nothing without a selected product or without a
      difference; otherwise the adjustment move is prepended and then the product
      is replaced by its adjusted snapshot. */
  method HandleQtyUpdate(store: InventoryStore, selected: Option<Product>, target: int,
                         moveId: string, refSuffix: string, date: string, lineId: string)
    modifies store
    ensures selected.None? || target == selected.value.stockLevel ==>
      store.products == old(store.products) && store.moves == old(store.moves)
    ensures selected.Some? && target != selected.value.stockLevel ==>
      var p := selected.value;
      && store.moves == [AdjustmentMove(p, target - p.stockLevel, moveId, refSuffix, date, lineId)] + old(store.moves)
      && store.products == ReplaceProduct(old(store.products), AdjustedProduct(p, target))
    ensures store.locations == old(store.locations)
  {
    if selected.None? {
      return;
    }
    var p := selected.value;
    var diff := target - p.stockLevel;
    if diff == 0 {
      return;
    }
    var move := AdjustmentMove(p, diff, moveId, refSuffix, date, lineId);
    store.AddMove(move);

    var currentLocStock := p.locationStock;
    var targetLoc := WarehouseStock;
    currentLocStock := currentLocStock[targetLoc := (if targetLoc in currentLocStock then currentLocStock[targetLoc] else 0) + diff];
    if currentLocStock[targetLoc] <= 0 {
      currentLocStock := currentLocStock - {targetLoc};
    }
    assert currentLocStock == ShiftedBreakdown(p.locationStock, diff);
    store.UpdateProduct(p.(stockLevel := target, locationStock := currentLocStock));
  }

  /** The adjustment move records the change faithfully: one line of |diff| units,
      a lot only for tracked products, and a direction whose on-hand effect in
      the store's own rule is exactly `diff`. */
  lemma AdjustmentMoveRecordsDifference(p: Product, diff: int, moveId: string, refSuffix: string, date: string, lineId: string)
    requires diff != 0
    ensures var m := AdjustmentMove(p, diff, moveId, refSuffix, date, lineId);
      && m.opType == Adjustment && m.status == Done
      && |m.lines| == 1 && m.lines[0].productId == p.id && m.lines[0].quantity >= 0
      && (m.lines[0].lotNumber.Some? <==> p.tracking != NoTracking)
      && StockDelta(m, m.lines[0].quantity) == diff
  {
  }

  /** The recorded adjustment is already Done, so validating it later changes
      nothing: the difference is never applied twice. */
  lemma AdjustmentMoveIsFinal(ps: seq<Product>, ms: seq<StockMove>, p: Product, diff: int,
                              moveId: string, refSuffix: string, date: string, lineId: string)
    ensures var m := AdjustmentMove(p, diff, moveId, refSuffix, date, lineId);
      Validated(ps, [m] + ms, moveId) == (ps, [m] + ms)
  {
  }

  /** `find` by the replaced id returns the new record, when that id was present. */
  lemma {:induction false} FindAfterReplace(ps: seq<Product>, q: Product)
    requires FindProductIndex(ps, q.id) != -1
    ensures FindProduct(ReplaceProduct(ps, q), q.id) == Some(q)
  {
    FindProductSameIds(ReplaceProduct(ps, q), ps, q.id);
  }

  /** After a quick adjustment the product's on-hand is exactly the target, and
      the breakdown entries other than `WH/Stock` are the snapshot's. */
  lemma {:induction false} QuickAdjustReachesTarget(ps: seq<Product>, p: Product, target: int)
    requires FindProductIndex(ps, p.id) != -1
    ensures var r := FindProduct(ReplaceProduct(ps, AdjustedProduct(p, target)), p.id);
      && r.Some? && r.value.stockLevel == target
      && forall k :: k != WarehouseStock && k in p.locationStock ==> k in r.value.locationStock && r.value.locationStock[k] == p.locationStock[k]
  {
    FindAfterReplace(ps, AdjustedProduct(p, target));
  }

  // ---------------------------------------------------------------------------
  // handleSubmit
  // ---------------------------------------------------------------------------

  /** `handleSubmit`: nothing unless both name and SKU are filled in; then the
      edited product replaces its namesakes, or the new one (with a clock id) is
      added. */
  method HandleSubmit(store: InventoryStore, form: Product, isEditMode: bool, newId: string)
    modifies store
    ensures form.name == "" || form.sku == "" ==> store.products == old(store.products)
    ensures form.name != "" && form.sku != "" && isEditMode ==>
      store.products == ReplaceProduct(old(store.products), form)
    ensures form.name != "" && form.sku != "" && !isEditMode ==>
      store.products == old(store.products) + [WithInitialLocationStock(form.(id := newId))]
    ensures store.moves == old(store.moves) && store.locations == old(store.locations)
  {
    if form.name != "" && form.sku != "" {
      if isEditMode {
        store.UpdateProduct(form);
      } else {
        store.AddProduct(form.(id := newId));
      }
    }
  }

  // ---------------------------------------------------------------------------
  // Product history
  // ---------------------------------------------------------------------------

  function MentionsProductFn(pid: string): StockMove -> bool {
    (m: StockMove) => MentionsProduct(m.lines, pid)
  }

  predicate SortedByDateDesc(ms: seq<StockMove>) {
    forall i, j :: 0 <= i < j < |ms| ==> !Less(ms[i].date, ms[j].date)
  }

  /** Places `m` before the first move that is not later than it. */
  function InsertByDate(m: StockMove, sorted: seq<StockMove>): seq<StockMove> {
    if sorted == [] then [m]
    else if !Less(m.date, sorted[0].date) then [m] + sorted
    else [sorted[0]] + InsertByDate(m, sorted[1..])
  }

  /** The history order, latest date first; moves of one date keep their order
      (`SortByDateDescStable`), as `Array.prototype.sort` does. */
  function SortByDateDesc(ms: seq<StockMove>): seq<StockMove> {
    if ms == [] then [] else InsertByDate(ms[0], SortByDateDesc(ms[1..]))
  }

  lemma {:induction false} InsertByDateElements(m: StockMove, sorted: seq<StockMove>)
    ensures multiset(InsertByDate(m, sorted)) == multiset(sorted) + multiset{m}
    ensures forall x :: x in InsertByDate(m, sorted) ==> x == m || x in sorted
  {
    if sorted != [] && Less(m.date, sorted[0].date) {
      InsertByDateElements(m, sorted[1..]);
      assert sorted == [sorted[0]] + sorted[1..];
    }
  }

  lemma {:induction false} InsertByDateSorted(m: StockMove, sorted: seq<StockMove>)
    requires SortedByDateDesc(sorted)
    ensures SortedByDateDesc(InsertByDate(m, sorted))
  {
    if sorted == [] {
    } else if !Less(m.date, sorted[0].date) {
      var r := [m] + sorted;
      forall i, j | 0 <= i < j < |r| ensures !Less(r[i].date, r[j].date) {
        if i == 0 && j > 1 {
          NotLessTransitive(m.date, sorted[0].date, sorted[j - 1].date);
        }
      }
    } else {
      var head := sorted[0];
      var rest := InsertByDate(m, sorted[1..]);
      InsertByDateSorted(m, sorted[1..]);
      InsertByDateElements(m, sorted[1..]);
      LessAsymmetric(m.date, head.date);
      forall x | x in sorted[1..] ensures !Less(head.date, x.date) {
        var k :| 0 <= k < |sorted[1..]| && sorted[1..][k] == x;
        assert sorted[k + 1] == x;
      }
      var r := [head] + rest;
      forall i, j | 0 <= i < j < |r| ensures !Less(r[i].date, r[j].date) {
        if i == 0 {
          assert r[j] in rest;
        } else {
          assert r[i] == rest[i - 1] && r[j] == rest[j - 1];
        }
      }
    }
  }

  function DatedOn(d: string): StockMove -> bool {
    (m: StockMove) => m.date == d
  }

  /** Inserting passes only moves of a strictly later date, so among moves of
      one date the inserted move stays first. */
  lemma {:induction false} InsertByDateStable(m: StockMove, sorted: seq<StockMove>, d: string)
    ensures Filter(InsertByDate(m, sorted), DatedOn(d)) == Filter([m] + sorted, DatedOn(d))
  {
    if sorted != [] && Less(m.date, sorted[0].date) {
      var f := DatedOn(d);
      var head := sorted[0];
      var rest := sorted[1..];
      LessIrreflexive(m.date);
      calc {
        Filter(InsertByDate(m, sorted), f);
        Filter([head] + InsertByDate(m, rest), f);
        { FilterCons(head, InsertByDate(m, rest), f); }
        (if f(head) then [head] else []) + Filter(InsertByDate(m, rest), f);
        { InsertByDateStable(m, rest, d); }
        (if f(head) then [head] else []) + Filter([m] + rest, f);
        { FilterCons(head, [m] + rest, f); }
        Filter([head] + ([m] + rest), f);
        { FilterSwap(head, m, rest, f); }
        Filter([m] + ([head] + rest), f);
        { assert [head] + rest == sorted; }
        Filter([m] + sorted, f);
      }
    }
  }

  /** The history sort is stable: the moves of any one date keep their order. */
  lemma {:induction false} SortByDateDescStable(ms: seq<StockMove>, d: string)
    ensures Filter(SortByDateDesc(ms), DatedOn(d)) == Filter(ms, DatedOn(d))
  {
    if ms != [] {
      SortByDateDescStable(ms[1..], d);
      InsertByDateStable(ms[0], SortByDateDesc(ms[1..]), d);
      FilterCons(ms[0], SortByDateDesc(ms[1..]), DatedOn(d));
      FilterCons(ms[0], ms[1..], DatedOn(d));
      assert [ms[0]] + ms[1..] == ms;
    }
  }

  /** The history sort orders by date, latest first, and is a permutation. */
  lemma {:induction false} SortByDateDescCorrect(ms: seq<StockMove>)
    ensures SortedByDateDesc(SortByDateDesc(ms))
    ensures multiset(SortByDateDesc(ms)) == multiset(ms)
  {
    if ms != [] {
      SortByDateDescCorrect(ms[1..]);
      InsertByDateSorted(ms[0], SortByDateDesc(ms[1..]));
      InsertByDateElements(ms[0], SortByDateDesc(ms[1..]));
      assert ms == [ms[0]] + ms[1..];
    }
  }

  /** The moves with a line for the product, latest date first. */
  function History(ms: seq<StockMove>, pid: string): (r: seq<StockMove>)
    ensures SortedByDateDesc(r)
    ensures multiset(r) == multiset(Filter(ms, MentionsProductFn(pid)))
    ensures forall d :: Filter(r, DatedOn(d)) == Filter(Filter(ms, MentionsProductFn(pid)), DatedOn(d))
  {
    SortByDateDescCorrect(Filter(ms, MentionsProductFn(pid)));
    forall d ensures Filter(SortByDateDesc(Filter(ms, MentionsProductFn(pid))), DatedOn(d)) == Filter(Filter(ms, MentionsProductFn(pid)), DatedOn(d)) {
      SortByDateDescStable(Filter(ms, MentionsProductFn(pid)), d);
    }
    SortByDateDesc(Filter(ms, MentionsProductFn(pid)))
  }

  /** The history holds exactly the moves with a line for the product, each as
      often as in the store, latest date first. */
  lemma {:induction false} HistoryContents(ms: seq<StockMove>, pid: string)
    ensures SortedByDateDesc(History(ms, pid))
    ensures multiset(History(ms, pid)) == multiset(Filter(ms, MentionsProductFn(pid)))
    ensures forall m :: m in History(ms, pid) <==> m in ms && MentionsProduct(m.lines, pid)
  {
    SortByDateDescCorrect(Filter(ms, MentionsProductFn(pid)));
    forall m ensures m in History(ms, pid) <==> m in Filter(ms, MentionsProductFn(pid)) {
      assert m in History(ms, pid) <==> m in multiset(History(ms, pid));
    }
  }

  /** The history's direction rule. */
  predicate HistoryIncoming(m: StockMove) {
    m.opType == Receipt || Contains(m.destLocation, WarehouseStock)
  }

  /** `move.lines.find(l => l.productId === pid)`. */
  function FirstLineFor(ls: seq<StockMoveLine>, pid: string): (r: Option<StockMoveLine>)
    ensures r.Some? <==> MentionsProduct(ls, pid)
    ensures r.Some? ==> r.value.productId == pid
    ensures r.Some? ==> exists j :: 0 <= j < |ls| && ls[j] == r.value && forall i :: 0 <= i < j ==> ls[i].productId != pid
  {
    if ls == [] then None
    else if ls[0].productId == pid then Some(ls[0])
    else
      var r := FirstLineFor(ls[1..], pid);
      assert r.Some? ==> exists j :: 0 <= j < |ls| && ls[j] == r.value && forall i :: 0 <= i < j ==> ls[i].productId != pid by {
        if r.Some? {
          var j :| 0 <= j < |ls[1..]| && ls[1..][j] == r.value && forall i :: 0 <= i < j ==> ls[1..][i].productId != pid;
          assert ls[j + 1] == r.value;
          assert forall i :: 0 <= i < j + 1 ==> ls[i].productId != pid by {
            forall i | 0 <= i < j + 1 ensures ls[i].productId != pid {
              if i > 0 {
                assert ls[i] == ls[1..][i - 1];
              }
            }
          }
        }
      }
      assert MentionsProduct(ls[1..], pid) ==> MentionsProduct(ls, pid) by {
        if MentionsProduct(ls[1..], pid) {
          var j :| 0 <= j < |ls[1..]| && ls[1..][j].productId == pid;
          assert ls[j + 1].productId == pid;
        }
      }
      r
  }

  datatype HistoryEntry = HistoryEntry(move: StockMove, line: StockMoveLine, signedQuantity: string)

  function EntriesOf(sorted: seq<StockMove>, pid: string): seq<HistoryEntry> {
    if sorted == [] then []
    else
      (match FirstLineFor(sorted[0].lines, pid)
       case None => []
       case Some(l) => [HistoryEntry(sorted[0], l, SignedText(HistoryIncoming(sorted[0]), l.quantity))])
      + EntriesOf(sorted[1..], pid)
  }

  /** The rows of the history table: one per history move, in history order,
      showing that move's first line for the product. */
  function HistoryEntries(ms: seq<StockMove>, pid: string): (r: seq<HistoryEntry>)
    ensures |r| == |History(ms, pid)|
    ensures forall i :: 0 <= i < |r| ==>
      r[i].move == History(ms, pid)[i] && Some(r[i].line) == FirstLineFor(r[i].move.lines, pid)
  {
    HistoryMovesMentionProduct(ms, pid);
    EntriesOfOnePerMove(History(ms, pid), pid);
    EntriesOf(History(ms, pid), pid)
  }

  lemma HistoryMovesMentionProduct(ms: seq<StockMove>, pid: string)
    ensures forall i :: 0 <= i < |History(ms, pid)| ==> MentionsProduct(History(ms, pid)[i].lines, pid)
  {
    var h := History(ms, pid);
    forall i | 0 <= i < |h| ensures MentionsProduct(h[i].lines, pid) {
      var f := Filter(ms, MentionsProductFn(pid));
      assert h[i] in multiset(f);
      assert h[i] in f;
      assert MentionsProductFn(pid)(h[i]);
    }
  }

  lemma {:induction false} EntriesOfOnePerMove(sorted: seq<StockMove>, pid: string)
    requires forall i :: 0 <= i < |sorted| ==> MentionsProduct(sorted[i].lines, pid)
    ensures var es := EntriesOf(sorted, pid);
      && |es| == |sorted|
      && forall i :: 0 <= i < |es| ==>
           && es[i].move == sorted[i]
           && es[i].line == FirstLineFor(sorted[i].lines, pid).value
           && es[i].signedQuantity == SignedText(HistoryIncoming(sorted[i]), es[i].line.quantity)
  {
    if sorted != [] {
      EntriesOfOnePerMove(sorted[1..], pid);
    }
  }

  /** Every history move yields one row, in history order, showing the move's
      first line for the product; the row reads '+' exactly when the move is a
      receipt or its destination mentions `WH/Stock`. */
  lemma {:induction false} HistoryEntriesOnePerMove(ms: seq<StockMove>, pid: string)
    ensures var h := History(ms, pid);
      var es := HistoryEntries(ms, pid);
      && |es| == |h|
      && forall i :: 0 <= i < |es| ==>
           && es[i].move == h[i]
           && es[i].line.productId == pid
           && es[i].signedQuantity == SignedText(HistoryIncoming(h[i]), es[i].line.quantity)
           && (es[i].signedQuantity[0] == '+' <==> HistoryIncoming(h[i]))
  {
    HistoryContents(ms, pid);
    var h := History(ms, pid);
    forall i | 0 <= i < |h| ensures MentionsProduct(h[i].lines, pid) {
      assert h[i] in h;
    }
    EntriesOfOnePerMove(h, pid);
  }
}
