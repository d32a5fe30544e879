/** The inventory store: three collections that each operation replaces as a
    whole. `CheckAvailability` and `ValidateMove` walk the lines of a move the way
    the store does and are proved equal to the rules in `Accounting`. */
module Store {
  import opened Types
  import opened Seqs
  import opened Accounting

  function LocationIsNot(name: string): string -> bool {
    (l: string) => l != name
  }

  /** The body of `validateMove`'s loop for a line whose product was found: the
      product's breakdown copied and edited in place, and its new on-hand total. */
  method LineUpdate(product: Product, move: StockMove, line: StockMoveLine) returns (newStock: int, locStock: map<string, int>)
    ensures locStock == MoveLocationStock(product.locationStock, move.sourceLocation, move.destLocation, line.quantity)
    ensures newStock == product.stockLevel + StockDelta(move, line.quantity)
  {
    newStock := product.stockLevel;
    locStock := product.locationStock;

    // 1. the source entry, when present and non-zero
    var src := move.sourceLocation;
    if src in locStock && locStock[src] != 0 {
      locStock := locStock[src := locStock[src] - line.quantity];
      if locStock[src] <= 0 {
        locStock := locStock - {src};
      }
    }

    // 2. the destination entry, unless it is an untracked party
    var dst := move.destLocation;
    if !IsUntrackedDestination(dst) {
      locStock := locStock[dst := (if dst in locStock then locStock[dst] else 0) + line.quantity];
    }

    // 3. the on-hand total
    if move.opType == Adjustment {
      if src == "Inventory Adjustment" {
        newStock := newStock + line.quantity;
      } else {
        newStock := newStock - line.quantity;
      }
    } else if !IsInternalTransfer(move) {
      if IsIncoming(move) {
        newStock := newStock + line.quantity;
      } else if IsOutgoing(move) {
        newStock := newStock - line.quantity;
      }
    }
  }

  /** The end of one iteration: the found product replaced, at its index in the
      working copy, by the record with the new on-hand and breakdown. */
  method StoreLine(updatedProducts: seq<Product>, prodIndex: int, move: StockMove, line: StockMoveLine)
    returns (r: seq<Product>)
    requires 0 <= prodIndex < |updatedProducts|
    ensures r == updatedProducts[prodIndex := LineApplied(updatedProducts[prodIndex], move, line)]
  {
    var product := updatedProducts[prodIndex];
    var newStock, locStock := LineUpdate(product, move, line);
    r := updatedProducts[prodIndex := product.(stockLevel := newStock, locationStock := locStock)];
  }

  /** `validateMove`'s loop: each line updates, in the working copy of the
      products, the first product with its id; a line whose product is missing
      is skipped. */
  method ApplyMoveLines(products: seq<Product>, move: StockMove) returns (updatedProducts: seq<Product>)
    ensures updatedProducts == ApplyLines(products, move, move.lines)
  {
    updatedProducts := products;
    for i := 0 to |move.lines|
      invariant updatedProducts == ApplyLines(products, move, move.lines[..i])
    {
      var line := move.lines[i];
      ApplyLinesStep(products, move, move.lines, i);
      var prodIndex := FindProductIndex(updatedProducts, line.productId);
      if prodIndex == -1 {
        continue;
      }
      updatedProducts := StoreLine(updatedProducts, prodIndex, move, line);
    }
    assert move.lines[..|move.lines|] == move.lines;
  }

  class InventoryStore {
    var products: seq<Product>
    var moves: seq<StockMove>
    var locations: seq<string>

    /** A store holding the given collections (what loading saved or seed data yields). */
    constructor(products0: seq<Product>, moves0: seq<StockMove>, locations0: seq<string>)
      ensures products == products0 && moves == moves0 && locations == locations0
    {
      products := products0;
      moves := moves0;
      locations := locations0;
    }

    /** `addProduct`: appends the product with its breakdown seeded. */
    method AddProduct(p: Product)
      modifies this
      ensures products == old(products) + [WithInitialLocationStock(p)]
      ensures moves == old(moves) && locations == old(locations)
    {
      products := products + [WithInitialLocationStock(p)];
    }

    /** `updateProduct`: every product with the same id is replaced. */
    method UpdateProduct(p: Product)
      modifies this
      ensures products == ReplaceProduct(old(products), p)
      ensures moves == old(moves) && locations == old(locations)
    {
      products := ReplaceProduct(products, p);
    }

    /** `deleteProduct`: every product with the id is removed. */
    method DeleteProduct(id: string)
      modifies this
      ensures products == Filter(old(products), ProductIdIsNot(id))
      ensures forall p :: p in products <==> p in old(products) && p.id != id
      ensures moves == old(moves) && locations == old(locations)
    {
      products := Filter(products, ProductIdIsNot(id));
    }

    /** `addMove`: the new move goes first. */
    method AddMove(m: StockMove)
      modifies this
      ensures moves == [m] + old(moves)
      ensures products == old(products) && locations == old(locations)
    {
      moves := [m] + moves;
    }

    /** `updateMove`: every move with the same id is replaced. */
    method UpdateMove(m: StockMove)
      modifies this
      ensures moves == ReplaceMove(old(moves), m)
      ensures products == old(products) && locations == old(locations)
    {
      moves := ReplaceMove(moves, m);
    }

    /** `deleteMove`: every move with the id is removed. */
    method DeleteMove(id: string)
      modifies this
      ensures moves == Filter(old(moves), MoveIdIsNot(id))
      ensures forall m :: m in moves <==> m in old(moves) && m.id != id
      ensures products == old(products) && locations == old(locations)
    {
      moves := Filter(moves, MoveIdIsNot(id));
    }

    method AddLocation(name: string)
      modifies this
      ensures locations == old(locations) + [name]
      ensures products == old(products) && moves == old(moves)
    {
      locations := locations + [name];
    }

    /** `removeLocation`: every occurrence of the name goes. */
    method RemoveLocation(name: string)
      modifies this
      ensures locations == Filter(old(locations), LocationIsNot(name))
      ensures name !in locations
      ensures products == old(products) && moves == old(moves)
    {
      locations := Filter(locations, LocationIsNot(name));
    }

    function GetReservedStock(pid: string): int
      reads this
    {
      ReservedStock(moves, pid)
    }

    function GetFreeToUse(pid: string): int
      reads this
    {
      FreeToUse(products, moves, pid)
    }

    function GetKpis(today: string): KpiMetrics
      reads this
    {
      Kpis(products, moves, today)
    }

    /** `checkAvailability`: decides Ready or Waiting line by line and stamps the
        decision on the move; products and locations are untouched. */
    method CheckAvailability(moveId: string)
      modifies this
      ensures moves == CheckedMoves(old(products), old(moves), moveId)
      ensures products == old(products) && locations == old(locations)
    {
      var found := FindMove(moves, moveId);
      if found.None? || found.value.opType != Delivery {
        return;
      }
      var move := found.value;
      var allAvailable := true;
      for i := 0 to |move.lines|
        invariant allAvailable <==> AllLinesAvailable(products, moves, moveId, move.lines[..i])
      {
        var line := move.lines[i];
        var product := FindProduct(products, line.productId);
        var reservedByOthers := ReservedByOthers(moves, line.productId, moveId);
        var available := (if product.Some? then product.value.stockLevel else 0) - reservedByOthers;
        if available < line.quantity {
          allAvailable := false;
        }
        assert move.lines[..i + 1] == move.lines[..i] + [line];
      }
      assert move.lines[..|move.lines|] == move.lines;
      var newStatus := if allAvailable then Ready else Waiting;
      moves := WithStatus(moves, moveId, newStatus);
    }

    /** `validateMove`: applies every line to a working copy of the products, in
        order, then marks the move Done. */
    method ValidateMove(moveId: string)
      modifies this
      ensures (products, moves) == Validated(old(products), old(moves), moveId)
      ensures locations == old(locations)
    {
      var found := FindMove(moves, moveId);
      if found.None? || found.value.status == Done {
        return;
      }
      var move := found.value;
      var updatedProducts := ApplyMoveLines(products, move);
      products := updatedProducts;
      moves := WithStatus(moves, moveId, Done);
    }
  }
}
