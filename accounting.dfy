/** The stock-accounting rules of the inventory store, as functions of the store's
    two collections: reservation, free-to-use quantity, the availability decision,
    the effect of validating a move, and the KPI counts. The store class applies
    them to its fields; the lemmas here state what the rules guarantee. */
module Accounting {
  import opened Types
  import opened Text
  import opened Seqs

  // ---------------------------------------------------------------------------
  // Lookups (`find` / `findIndex` by id: the first record with that id wins)
  // ---------------------------------------------------------------------------

  function ProductId(p: Product): string {
    p.id
  }

  function MoveId(m: StockMove): string {
    m.id
  }

  /** `findIndex` by a key: the first position whose key is `id`, or -1 when
      there is none. */
  function IndexOfKey<T>(s: seq<T>, key: T -> string, id: string): (k: int)
    ensures -1 <= k < |s|
    ensures k >= 0 ==> key(s[k]) == id
    ensures forall j :: 0 <= j < |s| && (k == -1 || j < k) ==> key(s[j]) != id
  {
    if s == [] then -1
    else if key(s[0]) == id then 0
    else
      var k := IndexOfKey(s[1..], key, id);
      if k == -1 then -1 else k + 1
  }

  function FindProductIndex(ps: seq<Product>, id: string): int {
    IndexOfKey(ps, ProductId, id)
  }

  function FindProduct(ps: seq<Product>, id: string): Option<Product> {
    var k := FindProductIndex(ps, id);
    if k == -1 then None else Some(ps[k])
  }

  function FindMoveIndex(ms: seq<StockMove>, id: string): int {
    IndexOfKey(ms, MoveId, id)
  }

  function FindMove(ms: seq<StockMove>, id: string): Option<StockMove> {
    var k := FindMoveIndex(ms, id);
    if k == -1 then None else Some(ms[k])
  }

  // ---------------------------------------------------------------------------
  // Whole-collection updates used by the store's helpers
  // ---------------------------------------------------------------------------

  /** `items.map(x => x.id === q.id ? q : x)`: every record whose key is the new
      record's key is replaced by it. */
  function ReplaceByKey<T>(s: seq<T>, key: T -> string, q: T): (r: seq<T>)
    ensures |r| == |s|
    ensures forall i :: 0 <= i < |s| ==> r[i] == if key(s[i]) == key(q) then q else s[i]
  {
    seq(|s|, i requires 0 <= i < |s| => if key(s[i]) == key(q) then q else s[i])
  }

  /** `products.map(p => p.id === q.id ? q : p)`. */
  function ReplaceProduct(ps: seq<Product>, q: Product): seq<Product> {
    ReplaceByKey(ps, ProductId, q)
  }

  /** `moves.map(m => m.id === n.id ? n : m)`. */
  function ReplaceMove(ms: seq<StockMove>, n: StockMove): seq<StockMove> {
    ReplaceByKey(ms, MoveId, n)
  }

  function ProductIdIsNot(id: string): Product -> bool {
    (p: Product) => p.id != id
  }

  function MoveIdIsNot(id: string): StockMove -> bool {
    (m: StockMove) => m.id != id
  }

  /** `moves.map(m => m.id === id ? { ...m, status } : m)`: every move carrying
      the id gets the status, whichever of them `find` returned. */
  function WithStatus(ms: seq<StockMove>, id: string, st: OperationStatus): (r: seq<StockMove>)
    ensures |r| == |ms|
    ensures forall i :: 0 <= i < |ms| ==> r[i] == if ms[i].id == id then ms[i].(status := st) else ms[i]
  {
    if ms == [] then []
    else [if ms[0].id == id then ms[0].(status := st) else ms[0]] + WithStatus(ms[1..], id, st)
  }

  /** The product `addProduct` stores: its breakdown is seeded with the whole
      initial quantity at its default location, or left empty when there is none. */
  function WithInitialLocationStock(p: Product): (r: Product)
    ensures r.(locationStock := p.locationStock) == p
    ensures p.stockLevel > 0 ==> r.locationStock == map[p.location := p.stockLevel]
    ensures p.stockLevel <= 0 ==> r.locationStock == map[]
  {
    p.(locationStock := if p.stockLevel > 0 then map[p.location := p.stockLevel] else map[])
  }

  // ---------------------------------------------------------------------------
  // Reservation and free-to-use
  // ---------------------------------------------------------------------------

  predicate IsReadyDelivery(m: StockMove) {
    m.status == Ready && m.opType == Delivery
  }

  /** The test `checkAvailability` uses for reservations held by other moves. */
  function ReadyDeliveryOtherThan(moveId: string): StockMove -> bool {
    (m: StockMove) => IsReadyDelivery(m) && m.id != moveId
  }

  /** `moves.flatMap(m => m.lines)`. */
  function LinesOf(ms: seq<StockMove>): seq<StockMoveLine> {
    if ms == [] then [] else ms[0].lines + LinesOf(ms[1..])
  }

  /** `lines.filter(l => l.productId === pid).reduce((acc, l) => acc + l.quantity, 0)`. */
  function SumQuantity(ls: seq<StockMoveLine>, pid: string): int {
    if ls == [] then 0
    else (if ls[0].productId == pid then ls[0].quantity else 0) + SumQuantity(ls[1..], pid)
  }

  /** `getReservedStock`: the quantity on lines of Ready deliveries, which is
      what the Ready deliveries reserve move by move, and never negative while
      line quantities are not. */
  function ReservedStock(ms: seq<StockMove>, pid: string): (r: int)
    ensures r == ReservedPerMove(ms, pid)
    ensures QuantitiesNonNegative(ms) ==> r >= 0
  {
    ReadyLinesPerMoveSum(ms, pid);
    if QuantitiesNonNegative(ms) then PerMoveNonNegative(ms, pid); SumQuantity(LinesOf(Filter(ms, IsReadyDelivery)), pid)
    else SumQuantity(LinesOf(Filter(ms, IsReadyDelivery)), pid)
  }

  /** The `reservedByOthers` of `checkAvailability`. */
  function ReservedByOthers(ms: seq<StockMove>, pid: string, moveId: string): int {
    SumQuantity(LinesOf(Filter(ms, ReadyDeliveryOtherThan(moveId))), pid)
  }

  /** `getFreeToUse`: on-hand minus reserved, not clamped; 0 for an unknown product. */
  function FreeToUse(ps: seq<Product>, ms: seq<StockMove>, pid: string): (r: int)
    ensures FindProduct(ps, pid).None? ==> r == 0
    ensures FindProduct(ps, pid).Some? ==> r == FindProduct(ps, pid).value.stockLevel - ReservedPerMove(ms, pid)
  {
    match FindProduct(ps, pid)
    case None => 0
    case Some(p) => p.stockLevel - ReservedStock(ms, pid)
  }

  /** What one move reserves of a product: the reference reading of reservation,
      move by move. */
  function MoveReservation(m: StockMove, pid: string): int {
    if IsReadyDelivery(m) then SumQuantity(m.lines, pid) else 0
  }

  function ReservedPerMove(ms: seq<StockMove>, pid: string): int {
    if ms == [] then 0 else MoveReservation(ms[0], pid) + ReservedPerMove(ms[1..], pid)
  }

  predicate QuantitiesNonNegative(ms: seq<StockMove>) {
    forall i, j :: 0 <= i < |ms| && 0 <= j < |ms[i].lines| ==> ms[i].lines[j].quantity >= 0
  }

  lemma {:induction false} SumQuantityAppend(a: seq<StockMoveLine>, b: seq<StockMoveLine>, pid: string)
    ensures SumQuantity(a + b, pid) == SumQuantity(a, pid) + SumQuantity(b, pid)
  {
    if a == [] {
      assert a + b == b;
    } else {
      assert (a + b)[1..] == a[1..] + b;
      SumQuantityAppend(a[1..], b, pid);
    }
  }

  lemma {:induction false} SumQuantityNonNegative(ls: seq<StockMoveLine>, pid: string)
    requires forall j :: 0 <= j < |ls| ==> ls[j].quantity >= 0
    ensures SumQuantity(ls, pid) >= 0
  {
    if ls != [] {
      SumQuantityNonNegative(ls[1..], pid);
    }
  }

  /** Reservation read through `filter`/`flatMap`/`reduce` equals the move-by-move
      sum of what each Ready delivery reserves. */
  lemma {:induction false} ReadyLinesPerMoveSum(ms: seq<StockMove>, pid: string)
    ensures SumQuantity(LinesOf(Filter(ms, IsReadyDelivery)), pid) == ReservedPerMove(ms, pid)
  {
    if ms != [] {
      ReadyLinesPerMoveSum(ms[1..], pid);
      var rest := Filter(ms[1..], IsReadyDelivery);
      if IsReadyDelivery(ms[0]) {
        assert Filter(ms, IsReadyDelivery) == [ms[0]] + rest;
        assert LinesOf([ms[0]] + rest) == ms[0].lines + LinesOf(rest) by {
          assert ([ms[0]] + rest)[1..] == rest;
        }
        SumQuantityAppend(ms[0].lines, LinesOf(rest), pid);
      } else {
        assert Filter(ms, IsReadyDelivery) == rest;
      }
    }
  }

  lemma {:induction false} PerMoveNonNegative(ms: seq<StockMove>, pid: string)
    requires QuantitiesNonNegative(ms)
    ensures ReservedPerMove(ms, pid) >= 0
  {
    if ms != [] {
      assert forall j :: 0 <= j < |ms[0].lines| ==> ms[0].lines[j].quantity >= 0;
      SumQuantityNonNegative(ms[0].lines, pid);
      assert QuantitiesNonNegative(ms[1..]) by {
        forall i, j | 0 <= i < |ms[1..]| && 0 <= j < |ms[1..][i].lines|
          ensures ms[1..][i].lines[j].quantity >= 0
        {
          assert ms[1..][i] == ms[i + 1];
        }
      }
      PerMoveNonNegative(ms[1..], pid);
    }
  }

  /** Free-to-use never exceeds on-hand while quantities are non-negative, and is
      0 for an unknown product. */
  lemma {:induction false} FreeToUseAtMostOnHand(ps: seq<Product>, ms: seq<StockMove>, pid: string)
    requires QuantitiesNonNegative(ms)
    ensures FindProduct(ps, pid).None? ==> FreeToUse(ps, ms, pid) == 0
    ensures FindProduct(ps, pid).Some? ==> FreeToUse(ps, ms, pid) <= FindProduct(ps, pid).value.stockLevel
  {
    PerMoveNonNegative(ms, pid);
  }

  // ---------------------------------------------------------------------------
  // checkAvailability
  // ---------------------------------------------------------------------------

  /** `product?.stockLevel || 0`. */
  function StockOrZero(ps: seq<Product>, pid: string): int {
    match FindProduct(ps, pid)
    case None => 0
    case Some(p) => p.stockLevel
  }

  predicate LineAvailable(ps: seq<Product>, ms: seq<StockMove>, moveId: string, l: StockMoveLine) {
    StockOrZero(ps, l.productId) - ReservedByOthers(ms, l.productId, moveId) >= l.quantity
  }

  predicate AllLinesAvailable(ps: seq<Product>, ms: seq<StockMove>, moveId: string, ls: seq<StockMoveLine>) {
    forall j :: 0 <= j < |ls| ==> LineAvailable(ps, ms, moveId, ls[j])
  }

  function AvailabilityStatus(ps: seq<Product>, ms: seq<StockMove>, moveId: string, m: StockMove): OperationStatus {
    if AllLinesAvailable(ps, ms, moveId, m.lines) then Ready else Waiting
  }

  /** The move collection after `checkAvailability(moveId)`. */
  function CheckedMoves(ps: seq<Product>, ms: seq<StockMove>, moveId: string): (r: seq<StockMove>)
    ensures |r| == |ms|
    ensures forall i :: 0 <= i < |ms| ==>
      || r[i] == ms[i]
      || (ms[i].id == moveId && (r[i] == ms[i].(status := Ready) || r[i] == ms[i].(status := Waiting)))
    ensures r != ms ==> FindMove(ms, moveId).Some? && FindMove(ms, moveId).value.opType == Delivery
  {
    match FindMove(ms, moveId)
    case None => ms
    case Some(m) =>
      if m.opType != Delivery then ms
      else WithStatus(ms, moveId, AvailabilityStatus(ps, ms, moveId, m))
  }

  /** No-op for a missing or non-delivery move; otherwise every move with that id
      becomes Ready or Waiting, whatever its status was (Done included), and no
      other move changes. */
  lemma CheckAvailabilityOutcome(ps: seq<Product>, ms: seq<StockMove>, moveId: string)
    ensures FindMove(ms, moveId).None? ==> CheckedMoves(ps, ms, moveId) == ms
    ensures FindMove(ms, moveId).Some? && FindMove(ms, moveId).value.opType != Delivery ==>
      CheckedMoves(ps, ms, moveId) == ms
    ensures FindMove(ms, moveId).Some? && FindMove(ms, moveId).value.opType == Delivery ==>
      var st := AvailabilityStatus(ps, ms, moveId, FindMove(ms, moveId).value);
      var r := CheckedMoves(ps, ms, moveId);
      && (st == Ready || st == Waiting)
      && |r| == |ms|
      && forall i :: 0 <= i < |ms| ==> r[i] == if ms[i].id == moveId then ms[i].(status := st) else ms[i]
  {
  }

  /** Changing the status of the moves with one id leaves the reservations held
      by the other moves as they were. */
  lemma {:induction false} OthersIgnoreOwnStatus(ms: seq<StockMove>, moveId: string, st: OperationStatus)
    ensures Filter(WithStatus(ms, moveId, st), ReadyDeliveryOtherThan(moveId))
         == Filter(ms, ReadyDeliveryOtherThan(moveId))
  {
    if ms != [] {
      OthersIgnoreOwnStatus(ms[1..], moveId, st);
      assert WithStatus(ms, moveId, st)[1..] == WithStatus(ms[1..], moveId, st);
    }
  }

  /** Restamping a status keeps every id where it was, so `find` by id lands on
      the same position. */
  lemma {:induction false} FindAfterWithStatus(ms: seq<StockMove>, id: string, other: string, st: OperationStatus)
    ensures FindMoveIndex(WithStatus(ms, id, st), other) == FindMoveIndex(ms, other)
  {
    if ms != [] {
      FindAfterWithStatus(ms[1..], id, other, st);
      assert WithStatus(ms, id, st)[1..] == WithStatus(ms[1..], id, st);
    }
  }

  lemma {:induction false} WithStatusTwice(ms: seq<StockMove>, id: string, st: OperationStatus)
    ensures WithStatus(WithStatus(ms, id, st), id, st) == WithStatus(ms, id, st)
  {
    var once := WithStatus(ms, id, st);
    var twice := WithStatus(once, id, st);
    assert forall i :: 0 <= i < |ms| ==> twice[i] == once[i];
  }

  /** Running `checkAvailability` twice in a row gives the same moves as running
      it once: the decision ignores the checked move's own status. */
  lemma {:induction false} CheckAvailabilityIdempotent(ps: seq<Product>, ms: seq<StockMove>, moveId: string)
    ensures CheckedMoves(ps, CheckedMoves(ps, ms, moveId), moveId) == CheckedMoves(ps, ms, moveId)
  {
    var r := CheckedMoves(ps, ms, moveId);
    var k := FindMoveIndex(ms, moveId);
    if k != -1 && ms[k].opType == Delivery {
      var m := ms[k];
      var st := AvailabilityStatus(ps, ms, moveId, m);
      assert r == WithStatus(ms, moveId, st);
      FindAfterWithStatus(ms, moveId, moveId, st);
      assert FindMove(r, moveId) == Some(m.(status := st));
      OthersIgnoreOwnStatus(ms, moveId, st);
      forall l: StockMoveLine ensures LineAvailable(ps, r, moveId, l) == LineAvailable(ps, ms, moveId, l) {
        assert ReservedByOthers(r, l.productId, moveId) == ReservedByOthers(ms, l.productId, moveId);
      }
      assert AvailabilityStatus(ps, r, moveId, m.(status := st)) == st;
      WithStatusTwice(ms, moveId, st);
    }
  }

  /** For a delivery none of whose copies is already reserved (Draft or Waiting,
      say) and whose products all exist, the check marks it Ready exactly when
      every line fits in the free-to-use quantity of its product. */
  lemma {:induction false} CheckAgreesWithFreeToUse(ps: seq<Product>, ms: seq<StockMove>, m: StockMove)
    requires FindMove(ms, m.id) == Some(m) && m.opType == Delivery
    requires forall i :: 0 <= i < |ms| && ms[i].id == m.id ==> !IsReadyDelivery(ms[i])
    requires forall j :: 0 <= j < |m.lines| ==> FindProduct(ps, m.lines[j].productId).Some?
    ensures AvailabilityStatus(ps, ms, m.id, m) == Ready <==>
      forall j :: 0 <= j < |m.lines| ==> m.lines[j].quantity <= FreeToUse(ps, ms, m.lines[j].productId)
  {
    FilterAgree(ms, IsReadyDelivery, ReadyDeliveryOtherThan(m.id));
    forall j | 0 <= j < |m.lines|
      ensures LineAvailable(ps, ms, m.id, m.lines[j]) <==> m.lines[j].quantity <= FreeToUse(ps, ms, m.lines[j].productId)
    {
      var pid := m.lines[j].productId;
      assert ReservedByOthers(ms, pid, m.id) == ReservedStock(ms, pid);
    }
  }

  // ---------------------------------------------------------------------------
  // validateMove
  // ---------------------------------------------------------------------------

  /** Internal (warehouse) locations are recognised by the substring `WH/`. */
  predicate IsWarehouse(loc: string) {
    Contains(loc, "WH/")
  }

  /** Destinations whose per-location entry is never credited. */
  predicate IsUntrackedDestination(loc: string) {
    loc in ["Vendor", "Customer", "Scrap"]
  }

  predicate IsIncoming(m: StockMove) {
    m.opType == Receipt || (IsWarehouse(m.destLocation) && !IsWarehouse(m.sourceLocation))
  }

  predicate IsOutgoing(m: StockMove) {
    m.opType == Delivery || (IsWarehouse(m.sourceLocation) && !IsWarehouse(m.destLocation))
  }

  predicate IsInternalTransfer(m: StockMove) {
    IsWarehouse(m.sourceLocation) && IsWarehouse(m.destLocation)
  }

  /** The change one line of `m` with quantity `q` makes to on-hand stock. */
  function StockDelta(m: StockMove, q: int): (d: int)
    ensures d == q || d == -q || d == 0
  {
    if m.opType == Adjustment then
      (if m.sourceLocation == "Inventory Adjustment" then q else -q)
    else if IsInternalTransfer(m) then 0
    else if IsIncoming(m) then q
    else if IsOutgoing(m) then -q
    else 0
  }

  /** Step 1 of a line: a source entry that is present and non-zero (JavaScript
      truthiness) is decreased and dropped once it is no longer positive; an
      absent or zero entry is left as it is. */
  function TakeFromSource(loc: map<string, int>, src: string, q: int): (r: map<string, int>)
    ensures forall k :: k != src ==> (k in r <==> k in loc) && (k in r ==> r[k] == loc[k])
    ensures src in r <==> src in loc && (loc[src] == 0 || loc[src] - q > 0)
    ensures src in r ==> r[src] == if loc[src] == 0 then 0 else loc[src] - q
  {
    if src in loc && loc[src] != 0 then
      (if loc[src] - q <= 0 then loc - {src} else loc[src := loc[src] - q])
    else loc
  }

  /** Step 2 of a line: the destination entry gains the quantity unless the
      destination is Vendor, Customer or Scrap. */
  function PutAtDestination(loc: map<string, int>, dst: string, q: int): (r: map<string, int>)
    ensures forall k :: k != dst ==> (k in r <==> k in loc) && (k in r ==> r[k] == loc[k])
    ensures IsUntrackedDestination(dst) ==> r == loc
    ensures !IsUntrackedDestination(dst) ==> dst in r && r[dst] == (if dst in loc then loc[dst] else 0) + q
  {
    if IsUntrackedDestination(dst) then loc
    else loc[dst := (if dst in loc then loc[dst] else 0) + q]
  }

  function MoveLocationStock(loc: map<string, int>, src: string, dst: string, q: int): map<string, int> {
    PutAtDestination(TakeFromSource(loc, src, q), dst, q)
  }

  /** A product after one line of `m`: new on-hand and new breakdown. */
  function LineApplied(p: Product, m: StockMove, l: StockMoveLine): Product {
    p.(stockLevel := p.stockLevel + StockDelta(m, l.quantity),
       locationStock := MoveLocationStock(p.locationStock, m.sourceLocation, m.destLocation, l.quantity))
  }

  /** One iteration of the loop over `move.lines`: the first product with the
      line's id (if any) gets the new on-hand and breakdown. */
  function ApplyLine(ps: seq<Product>, m: StockMove, l: StockMoveLine): (r: seq<Product>)
    ensures |r| == |ps|
    ensures forall i :: 0 <= i < |ps| ==> r[i].id == ps[i].id
  {
    var k := FindProductIndex(ps, l.productId);
    if k == -1 then ps else ps[k := LineApplied(ps[k], m, l)]
  }

  /** The lines applied in order, each to the products the previous ones left. */
  function ApplyLines(ps: seq<Product>, m: StockMove, ls: seq<StockMoveLine>): (r: seq<Product>)
    ensures |r| == |ps|
    ensures forall i :: 0 <= i < |ps| ==> r[i].id == ps[i].id
    decreases |ls|
  {
    if ls == [] then ps else ApplyLine(ApplyLines(ps, m, ls[..|ls| - 1]), m, ls[|ls| - 1])
  }

  /** One more line of the loop is one more `ApplyLine`. */
  lemma ApplyLinesStep(ps: seq<Product>, m: StockMove, ls: seq<StockMoveLine>, i: nat)
    requires i < |ls|
    ensures ApplyLines(ps, m, ls[..i + 1]) == ApplyLine(ApplyLines(ps, m, ls[..i]), m, ls[i])
  {
    assert ls[..i + 1][..i] == ls[..i];
  }

  /** Products and moves after `validateMove(moveId)`. */
  function Validated(ps: seq<Product>, ms: seq<StockMove>, moveId: string): (r: (seq<Product>, seq<StockMove>))
    ensures |r.0| == |ps| && forall i :: 0 <= i < |ps| ==> r.0[i].id == ps[i].id
    ensures |r.1| == |ms|
    ensures forall i :: 0 <= i < |ms| ==> r.1[i] == ms[i] || (ms[i].id == moveId && r.1[i] == ms[i].(status := Done))
    ensures r.1 != ms ==> r.0 == ApplyLines(ps, FindMove(ms, moveId).value, FindMove(ms, moveId).value.lines)
  {
    match FindMove(ms, moveId)
    case None => (ps, ms)
    case Some(m) =>
      if m.status == Done then (ps, ms)
      else (ApplyLines(ps, m, m.lines), WithStatus(ms, moveId, Done))
  }

  /** No-op for a missing or Done move; otherwise every move with that id is Done
      and no other move changes. */
  lemma ValidateOutcome(ps: seq<Product>, ms: seq<StockMove>, moveId: string)
    ensures FindMove(ms, moveId).None? || FindMove(ms, moveId).value.status == Done ==>
      Validated(ps, ms, moveId) == (ps, ms)
    ensures FindMove(ms, moveId).Some? && FindMove(ms, moveId).value.status != Done ==>
      var r := Validated(ps, ms, moveId).1;
      |r| == |ms| && forall i :: 0 <= i < |ms| ==> r[i] == if ms[i].id == moveId then ms[i].(status := Done) else ms[i]
  {
  }

  /** Validating twice is validating once: the second call finds the move Done. */
  lemma {:induction false} ValidateIdempotent(ps: seq<Product>, ms: seq<StockMove>, moveId: string)
    ensures var (ps1, ms1) := Validated(ps, ms, moveId);
      Validated(ps1, ms1, moveId) == (ps1, ms1)
  {
    var k := FindMoveIndex(ms, moveId);
    if k != -1 && ms[k].status != Done {
      FindAfterWithStatus(ms, moveId, moveId, Done);
    }
  }

  predicate MentionsProduct(ls: seq<StockMoveLine>, pid: string) {
    exists j :: 0 <= j < |ls| && ls[j].productId == pid
  }

  /** A product no line of the move refers to keeps its record. */
  lemma {:induction false} ApplyLinesLeavesOthers(ps: seq<Product>, m: StockMove, ls: seq<StockMoveLine>, i: int)
    requires 0 <= i < |ps| && !MentionsProduct(ls, ps[i].id)
    ensures ApplyLines(ps, m, ls)[i] == ps[i]
    decreases |ls|
  {
    if ls != [] {
      var init := ls[..|ls| - 1];
      assert !MentionsProduct(init, ps[i].id) by {
        forall j | 0 <= j < |init| ensures init[j].productId != ps[i].id {
          assert init[j] == ls[j];
        }
      }
      ApplyLinesLeavesOthers(ps, m, init, i);
      assert ls[|ls| - 1].productId != ps[i].id;
    }
  }

  /** The on-hand change a move makes to one product: the deltas of every line
      for it, added up. */
  function DeltaFor(m: StockMove, ls: seq<StockMoveLine>, pid: string): int
    decreases |ls|
  {
    if ls == [] then 0
    else DeltaFor(m, ls[..|ls| - 1], pid)
         + (if ls[|ls| - 1].productId == pid then StockDelta(m, ls[|ls| - 1].quantity) else 0)
  }

  /** `findIndex` by id only looks at the ids. */
  lemma {:induction false} FindProductSameIds(a: seq<Product>, b: seq<Product>, pid: string)
    requires |a| == |b| && forall i :: 0 <= i < |a| ==> a[i].id == b[i].id
    ensures FindProductIndex(a, pid) == FindProductIndex(b, pid)
  {
    if a != [] {
      FindProductSameIds(a[1..], b[1..], pid);
    }
  }

  lemma FindProductAfterApply(ps: seq<Product>, m: StockMove, ls: seq<StockMoveLine>, pid: string)
    ensures FindProductIndex(ApplyLines(ps, m, ls), pid) == FindProductIndex(ps, pid)
  {
    FindProductSameIds(ApplyLines(ps, m, ls), ps, pid);
  }

  /** Several lines for the same product add up: each one reads the record the
      previous one wrote. */
  lemma {:induction false} StockLevelAccumulates(ps: seq<Product>, m: StockMove, ls: seq<StockMoveLine>, pid: string)
    requires FindProductIndex(ps, pid) != -1
    ensures var k := FindProductIndex(ps, pid);
      ApplyLines(ps, m, ls)[k].stockLevel == ps[k].stockLevel + DeltaFor(m, ls, pid)
    decreases |ls|
  {
    if ls != [] {
      var init := ls[..|ls| - 1];
      var l := ls[|ls| - 1];
      StockLevelAccumulates(ps, m, init, pid);
      var before := ApplyLines(ps, m, init);
      FindProductAfterApply(ps, m, init, pid);
      FindProductAfterApply(ps, m, init, l.productId);
      var k := FindProductIndex(ps, pid);
      if l.productId != pid {
        var j := FindProductIndex(before, l.productId);
        assert j == -1 || before[j].id != before[k].id;
      }
    }
  }

  /** A transfer between two warehouse locations (not an adjustment) leaves every
      on-hand total where it was; only the breakdown moves. */
  lemma {:induction false} InternalTransferKeepsStock(ps: seq<Product>, m: StockMove, ls: seq<StockMoveLine>, i: int)
    requires m.opType != Adjustment && IsInternalTransfer(m)
    requires 0 <= i < |ps|
    ensures ApplyLines(ps, m, ls)[i].stockLevel == ps[i].stockLevel
    decreases |ls|
  {
    if ls != [] {
      InternalTransferKeepsStock(ps, m, ls[..|ls| - 1], i);
    }
  }

  predicate NonNegativeEntries(loc: map<string, int>) {
    forall k :: k in loc ==> loc[k] >= 0
  }

  /** With a non-negative quantity, one line never leaves a negative entry in a
      breakdown that had none: a decreased source entry is dropped once it is
      not positive. */
  lemma MoveLocationStockNonNegative(loc: map<string, int>, src: string, dst: string, q: int)
    requires NonNegativeEntries(loc) && q >= 0
    ensures NonNegativeEntries(MoveLocationStock(loc, src, dst, q))
  {
  }

  predicate BreakdownsNonNegative(ps: seq<Product>) {
    forall i :: 0 <= i < |ps| ==> NonNegativeEntries(ps[i].locationStock)
  }

  /** Validation never leaves a negative per-location entry when there was none
      and the line quantities are non-negative. */
  lemma {:induction false} ApplyLinesNonNegative(ps: seq<Product>, m: StockMove, ls: seq<StockMoveLine>)
    requires BreakdownsNonNegative(ps)
    requires forall j :: 0 <= j < |ls| ==> ls[j].quantity >= 0
    ensures BreakdownsNonNegative(ApplyLines(ps, m, ls))
    decreases |ls|
  {
    if ls != [] {
      var init := ls[..|ls| - 1];
      ApplyLinesNonNegative(ps, m, init);
      var before := ApplyLines(ps, m, init);
      var l := ls[|ls| - 1];
      var k := FindProductIndex(before, l.productId);
      if k != -1 {
        MoveLocationStockNonNegative(before[k].locationStock, m.sourceLocation, m.destLocation, l.quantity);
      }
    }
  }

  // ---------------------------------------------------------------------------
  // getKPIs
  // ---------------------------------------------------------------------------

  predicate IsLowStock(p: Product) {
    p.stockLevel <= p.minStock
  }

  /** Open and scheduled before today; a missing date reads as '' and so as
      earlier than any non-empty today. */
  predicate IsLate(m: StockMove, today: string)
    ensures IsLate(m, today) ==> today != "" && OrEmpty(m.scheduleDate) != today
  {
    LessIrreflexive(today);
    m.status != Done && m.status != Cancelled && Less(OrEmpty(m.scheduleDate), today)
  }

  function LateOfType(t: OperationType, today: string): StockMove -> bool {
    (m: StockMove) => m.opType == t && IsLate(m, today)
  }

  predicate IsReceiptToReceive(m: StockMove) {
    m.opType == Receipt && (m.status == Ready || m.status == Draft)
  }

  predicate IsWaitingDelivery(m: StockMove) {
    m.opType == Delivery && (m.status == Waiting || m.status == Draft)
  }

  /** `getKPIs`: every count is that of the records passing its test, so none
      exceeds its collection; a low-stock product is counted, an open undated
      move of its type is counted late. */
  function Kpis(ps: seq<Product>, ms: seq<StockMove>, today: string): (k: KpiMetrics)
    ensures k.totalProducts == |ps| && k.lowStockItems <= |ps|
    ensures k.receiptsLate <= |ms| && k.receiptsToReceive <= |ms| && k.deliveriesLate <= |ms|
    ensures k.deliveriesToDeliver <= |ms| && k.deliveriesWaiting <= |ms|
    ensures (exists i :: 0 <= i < |ps| && IsLowStock(ps[i])) ==> k.lowStockItems > 0
    ensures (exists i :: 0 <= i < |ms| && IsReadyDelivery(ms[i])) ==> k.deliveriesToDeliver > 0
    ensures k.lowStockItems == |Positions(ps, IsLowStock)|
    ensures k.receiptsLate == |Positions(ms, LateOfType(Receipt, today))|
    ensures k.receiptsToReceive == |Positions(ms, IsReceiptToReceive)|
    ensures k.deliveriesLate == |Positions(ms, LateOfType(Delivery, today))|
    ensures k.deliveriesToDeliver == |Positions(ms, IsReadyDelivery)|
    ensures k.deliveriesWaiting == |Positions(ms, IsWaitingDelivery)|
  {
    FilterCountsPositions(ps, IsLowStock);
    FilterCountsPositions(ms, LateOfType(Receipt, today));
    FilterCountsPositions(ms, IsReceiptToReceive);
    FilterCountsPositions(ms, LateOfType(Delivery, today));
    FilterCountsPositions(ms, IsReadyDelivery);
    FilterCountsPositions(ms, IsWaitingDelivery);
    KpiMetrics(
      |ps|,
      |Filter(ps, IsLowStock)|,
      |Filter(ms, LateOfType(Receipt, today))|,
      |Filter(ms, IsReceiptToReceive)|,
      |Filter(ms, LateOfType(Delivery, today))|,
      |Filter(ms, IsReadyDelivery)|,
      |Filter(ms, IsWaitingDelivery)|)
  }

  /** The counts are bounded by the collections, and the counts that split one
      population by status or type never overlap. */
  lemma KpiBounds(ps: seq<Product>, ms: seq<StockMove>, today: string)
    ensures var k := Kpis(ps, ms, today);
      && k.totalProducts == |ps|
      && k.lowStockItems <= k.totalProducts
      && k.deliveriesToDeliver + k.deliveriesWaiting <= |ms|
      && k.receiptsLate + k.deliveriesLate <= |ms|
      && k.receiptsToReceive + k.deliveriesToDeliver <= |ms|
  {
    FilterDisjointCount(ms, IsReadyDelivery, IsWaitingDelivery);
    FilterDisjointCount(ms, LateOfType(Receipt, today), LateOfType(Delivery, today));
    FilterDisjointCount(ms, IsReceiptToReceive, IsReadyDelivery);
  }

  /** An open move without a schedule date is late for any non-empty today. */
  lemma UndatedOpenMoveIsLate(m: StockMove, today: string)
    requires m.status != Done && m.status != Cancelled
    requires m.scheduleDate.None? || m.scheduleDate == Some("")
    requires today != ""
    ensures IsLate(m, today)
  {
    EmptyIsLeast(today);
  }

  /** A move that is Done or Cancelled is never late, whatever its date. */
  lemma ClosedMoveNeverLate(m: StockMove, today: string)
    requires m.status == Done || m.status == Cancelled
    ensures !IsLate(m, today)
  {
  }
}
