/** The domain logic of the operations page: the type, search and status filters,
    the Kanban columns, how the create/edit form turns into a move, and which
    workflow actions each view offers for a move. */
module OperationsPage {
  import opened Types
  import opened Text
  import opened Seqs
  import opened Accounting

  // ---------------------------------------------------------------------------
  // baseFilteredMoves and filteredMoves
  // ---------------------------------------------------------------------------

  /** 'All' or the type's own label. */
  predicate TypeMatches(filterType: string, m: StockMove) {
    filterType == "All" || m.opType.Label() == filterType
  }

  /** An empty term matches everything; otherwise the reference, a non-empty
      contact, or a non-empty lot on the first line must contain it. */
  predicate SearchMatches(lowerTerm: string, m: StockMove) {
    || lowerTerm == ""
    || Contains(Lower(m.reference), lowerTerm)
    || (m.contact.Some? && m.contact.value != "" && Contains(Lower(m.contact.value), lowerTerm))
    || (|m.lines| > 0 && m.lines[0].lotNumber.Some? && m.lines[0].lotNumber.value != ""
        && Contains(Lower(m.lines[0].lotNumber.value), lowerTerm))
  }

  function BaseKept(filterType: string, term: string): StockMove -> bool {
    (m: StockMove) => TypeMatches(filterType, m) && SearchMatches(Lower(term), m)
  }

  /** `baseFilteredMoves`: the moves, in store order, of the chosen type that
      match the search. */
  function BaseFilteredMoves(ms: seq<StockMove>, filterType: string, term: string): (r: seq<StockMove>)
    ensures |r| <= |ms|
    ensures forall m :: m in r <==> m in ms && TypeMatches(filterType, m) && SearchMatches(Lower(term), m)
  {
    Filter(ms, BaseKept(filterType, term))
  }

  /** The status filter; no filter, or one it does not know, keeps every move. */
  predicate StatusMatches(statusFilter: Option<string>, today: string, m: StockMove) {
    match statusFilter
    case None => true
    case Some(f) =>
      if f == "late" then IsLate(m, today)
      else if f == "ready" then m.status == Ready
      else if f == "waiting" then m.status == Waiting
      else if f == "todo" then m.status == Draft || m.status == Ready || m.status == Waiting
      else true
  }

  function StatusKept(statusFilter: Option<string>, today: string): StockMove -> bool {
    (m: StockMove) => StatusMatches(statusFilter, today, m)
  }

  /** `filteredMoves`: the base list narrowed by the status filter. */
  function FilteredMoves(ms: seq<StockMove>, filterType: string, term: string, statusFilter: Option<string>, today: string): (r: seq<StockMove>)
    ensures |r| <= |BaseFilteredMoves(ms, filterType, term)|
    ensures forall m :: m in r <==>
      m in ms && TypeMatches(filterType, m) && SearchMatches(Lower(term), m) && StatusMatches(statusFilter, today, m)
  {
    Filter(BaseFilteredMoves(ms, filterType, term), StatusKept(statusFilter, today))
  }

  function AllKept(filterType: string, term: string, statusFilter: Option<string>, today: string): StockMove -> bool {
    (m: StockMove) => BaseKept(filterType, term)(m) && StatusKept(statusFilter, today)(m)
  }

  /** The list is one filter over the store's moves by all three tests, so it is
      an ordered sub-list of the base list and of the store. */
  lemma {:induction false} FilteredMovesIsOneFilter(ms: seq<StockMove>, filterType: string, term: string, statusFilter: Option<string>, today: string)
    ensures FilteredMoves(ms, filterType, term, statusFilter, today) == Filter(ms, AllKept(filterType, term, statusFilter, today))
    ensures forall m :: m in FilteredMoves(ms, filterType, term, statusFilter, today) ==>
      m in BaseFilteredMoves(ms, filterType, term) && StatusMatches(statusFilter, today, m)
  {
    FilterTwice(ms, BaseKept(filterType, term), StatusKept(statusFilter, today), AllKept(filterType, term, statusFilter, today));
  }

  /** With no type, term or status filter the list is the store's moves. */
  lemma {:induction false} NoFiltersListAll(ms: seq<StockMove>, today: string)
    ensures FilteredMoves(ms, "All", "", None, today) == ms
  {
    FilterKeepsAll(ms, BaseKept("All", ""));
    FilterKeepsAll(ms, StatusKept(None, today));
  }

  /** A status filter the page does not know keeps the whole base list. */
  lemma {:induction false} UnknownStatusFilterKeepsBase(ms: seq<StockMove>, filterType: string, term: string, f: string, today: string)
    requires f != "late" && f != "ready" && f != "waiting" && f != "todo"
    ensures FilteredMoves(ms, filterType, term, Some(f), today) == BaseFilteredMoves(ms, filterType, term)
  {
    FilterKeepsAll(BaseFilteredMoves(ms, filterType, term), StatusKept(Some(f), today));
  }

  /** Following the dashboard's late links (type filter plus 'late', no term)
      lists exactly as many moves as the dashboard's late counts. */
  lemma {:induction false} LateListsMatchKpis(ps: seq<Product>, ms: seq<StockMove>, today: string)
    ensures |FilteredMoves(ms, Receipt.Label(), "", Some("late"), today)| == Kpis(ps, ms, today).receiptsLate
    ensures |FilteredMoves(ms, Delivery.Label(), "", Some("late"), today)| == Kpis(ps, ms, today).deliveriesLate
  {
    FilteredMovesIsOneFilter(ms, Receipt.Label(), "", Some("late"), today);
    FilterAgree(ms, AllKept(Receipt.Label(), "", Some("late"), today), LateOfType(Receipt, today));
    FilteredMovesIsOneFilter(ms, Delivery.Label(), "", Some("late"), today);
    FilterAgree(ms, AllKept(Delivery.Label(), "", Some("late"), today), LateOfType(Delivery, today));
  }

  /** The deliveries listed under 'todo' are the dashboard's deliveries to
      deliver plus its waiting deliveries. */
  lemma {:induction false} TodoDeliveriesMatchKpis(ps: seq<Product>, ms: seq<StockMove>, today: string)
    ensures |FilteredMoves(ms, Delivery.Label(), "", Some("todo"), today)|
         == Kpis(ps, ms, today).deliveriesToDeliver + Kpis(ps, ms, today).deliveriesWaiting
  {
    var kept := AllKept(Delivery.Label(), "", Some("todo"), today);
    FilteredMovesIsOneFilter(ms, Delivery.Label(), "", Some("todo"), today);
    FilterSplitCount(ms, IsReadyDelivery, IsWaitingDelivery, kept);
  }

  // ---------------------------------------------------------------------------
  // Kanban
  // ---------------------------------------------------------------------------

  function HasStatus(st: OperationStatus): StockMove -> bool {
    (m: StockMove) => m.status == st
  }

  /** One Kanban column: the base list (the status filter is ignored) narrowed
      to one status. */
  function KanbanColumn(base: seq<StockMove>, st: OperationStatus): (r: seq<StockMove>)
    ensures |r| <= |base|
    ensures forall m :: m in r <==> m in base && m.status == st
  {
    Filter(base, HasStatus(st))
  }

  /** The board's four columns are Draft, Waiting, Ready and Done: every base move
      shows in the column of its status, and a Cancelled move in none. */
  lemma KanbanPlacement(base: seq<StockMove>, m: StockMove)
    requires m in base
    ensures m.status != Cancelled ==> m in KanbanColumn(base, m.status)
    ensures forall st :: m in KanbanColumn(base, st) ==> st == m.status
    ensures m.status == Cancelled ==>
      forall st :: st in [Draft, Waiting, Ready, Done] ==> m !in KanbanColumn(base, st)
  {
  }

  // ---------------------------------------------------------------------------
  // handleSave
  // ---------------------------------------------------------------------------

  datatype SaveOutcome = NoSave | AddNew(move: StockMove) | UpdateExisting(move: StockMove)

  function ReferencePrefix(t: OperationType): string {
    if t == Receipt then "WH/IN/" else if t == Delivery then "WH/OUT/" else "WH/INT/"
  }

  /** What `handleSave` hands to the store. `form` is the dialog's move (the
      edited move, or the fields typed for a new one); ids, the reference suffix
      and today's date come from the clock and are parameters. */
  function SaveMove(ps: seq<Product>, selectedProductId: string, quantity: int, lotNumber: string,
                    isEditMode: bool, editingId: Option<string>, form: StockMove,
                    newMoveId: string, newLineId: string, refSuffix: string, today: string): (r: SaveOutcome)
    ensures r.NoSave? <==> FindProduct(ps, selectedProductId).None?
    ensures !r.NoSave? ==> |r.move.lines| == 1 && r.move.lines[0].productId == selectedProductId
                           && r.move.lines[0].quantity == quantity
    ensures !r.NoSave? ==> (r.UpdateExisting? <==> isEditMode && editingId.Some? && editingId.value != "")
    ensures r.AddNew? ==> r.move.id == newMoveId && r.move.status == Draft && r.move.date == today
                          && r.move.contact == form.contact && r.move.scheduleDate == form.scheduleDate
    ensures r.UpdateExisting? ==> isEditMode && r.move.(lines := form.lines) == form
  {
    match FindProduct(ps, selectedProductId)
    case None => NoSave
    case Some(product) =>
      var lineId := if isEditMode && |form.lines| > 0 && form.lines[0].id != "" then form.lines[0].id else newLineId;
      var line := StockMoveLine(lineId, product.id, product.name, quantity,
                                if product.tracking != NoTracking then Some(lotNumber) else None);
      if isEditMode && editingId.Some? && editingId.value != "" then
        UpdateExisting(form.(lines := [line]))
      else
        AddNew(StockMove(newMoveId, ReferencePrefix(form.opType) + refSuffix, form.opType, Draft,
                         form.contact, form.scheduleDate, form.sourceLocation, form.destLocation, today, [line]))
  }

  /** A new move is a Draft of the form's type and locations with one line for
      the selected product; its reference starts with `WH/IN/` exactly for a
      receipt and `WH/OUT/` exactly for a delivery, and the line has a lot exactly
      when the product is tracked. */
  lemma {:induction false} NewMoveShape(ps: seq<Product>, selectedProductId: string, quantity: int, lotNumber: string,
                                        isEditMode: bool, editingId: Option<string>, form: StockMove,
                                        newMoveId: string, newLineId: string, refSuffix: string, today: string)
    requires SaveMove(ps, selectedProductId, quantity, lotNumber, isEditMode, editingId, form, newMoveId, newLineId, refSuffix, today).AddNew?
    ensures var m := SaveMove(ps, selectedProductId, quantity, lotNumber, isEditMode, editingId, form, newMoveId, newLineId, refSuffix, today).move;
      var p := FindProduct(ps, selectedProductId).value;
      && m.status == Draft && m.opType == form.opType
      && m.sourceLocation == form.sourceLocation && m.destLocation == form.destLocation
      && (StartsWith(m.reference, "WH/IN/") <==> m.opType == Receipt)
      && (StartsWith(m.reference, "WH/OUT/") <==> m.opType == Delivery)
      && |m.lines| == 1 && m.lines[0].productId == p.id && m.lines[0].quantity == quantity
      && (m.lines[0].lotNumber.Some? <==> p.tracking != NoTracking)
  {
    var m := SaveMove(ps, selectedProductId, quantity, lotNumber, isEditMode, editingId, form, newMoveId, newLineId, refSuffix, today).move;
    var pre := ReferencePrefix(form.opType);
    assert m.reference[..|pre|] == pre;
    assert m.reference[3] == pre[3] && m.reference[5] == pre[5];
  }

  /** Editing keeps every field of the edited move and replaces its lines by the
      one new line, which reuses the old first line's id when there is one. */
  lemma EditKeepsMove(ps: seq<Product>, selectedProductId: string, quantity: int, lotNumber: string,
                      isEditMode: bool, editingId: Option<string>, form: StockMove,
                      newMoveId: string, newLineId: string, refSuffix: string, today: string)
    requires SaveMove(ps, selectedProductId, quantity, lotNumber, isEditMode, editingId, form, newMoveId, newLineId, refSuffix, today).UpdateExisting?
    ensures var m := SaveMove(ps, selectedProductId, quantity, lotNumber, isEditMode, editingId, form, newMoveId, newLineId, refSuffix, today).move;
      && m.(lines := form.lines) == form
      && |m.lines| == 1
      && m.lines[0].productId == selectedProductId
      && (|form.lines| > 0 && form.lines[0].id != "" ==> m.lines[0].id == form.lines[0].id)
  {
  }

  // ---------------------------------------------------------------------------
  // Workflow actions offered
  // ---------------------------------------------------------------------------

  datatype Action = ValidateAction | CheckAction | DeleteAction

  predicate OffersValidate(m: StockMove) {
    m.status == Ready || (m.opType == Receipt && m.status == Draft)
  }

  predicate OffersCheck(m: StockMove) {
    m.opType == Delivery && (m.status == Draft || m.status == Waiting)
  }

  /** The buttons of a row in the list. */
  function ListActions(m: StockMove): (r: set<Action>)
    ensures ValidateAction in r <==> OffersValidate(m)
    ensures CheckAction in r <==> OffersCheck(m)
    ensures DeleteAction !in r
    ensures m.status == Done || m.status == Cancelled ==> r == {}
  {
    (if OffersValidate(m) then {ValidateAction} else {}) + (if OffersCheck(m) then {CheckAction} else {})
  }

  /** The buttons of the edit dialog: none for a Done move, else the same as the
      list plus delete. */
  function ModalActions(m: StockMove): (r: set<Action>)
    ensures m.status == Done ==> r == {}
    ensures m.status != Done ==> DeleteAction in r && r - {DeleteAction} == ListActions(m)
  {
    if m.status == Done then {}
    else (if OffersCheck(m) then {CheckAction} else {}) + (if OffersValidate(m) then {ValidateAction} else {}) + {DeleteAction}
  }

  /** The buttons of a Kanban card in column `st`. */
  function KanbanActions(st: OperationStatus): (r: set<Action>)
    ensures r <= {ValidateAction}
    ensures ValidateAction in r <==> st == Ready
  {
    if st == Ready then {ValidateAction} else {}
  }

  /** A Done move offers no action anywhere, and the dialog offers what the list
      does plus delete for every other move. */
  lemma ActionsAgree(m: StockMove)
    ensures m.status == Done ==> ListActions(m) == {} && ModalActions(m) == {} && KanbanActions(m.status) == {}
    ensures m.status != Done ==> ModalActions(m) == ListActions(m) + {DeleteAction}
    ensures KanbanActions(m.status) <= ListActions(m)
  {
  }

  /** A Draft internal transfer or adjustment is offered neither check nor
      validate anywhere; the dialog only lets it be deleted. */
  lemma DraftTransferOffersNoStep(m: StockMove)
    requires m.status == Draft && (m.opType == Internal || m.opType == Adjustment)
    ensures ListActions(m) == {} && ModalActions(m) == {DeleteAction} && KanbanActions(m.status) == {}
  {
  }

  /** An offered validate is never a no-op: the move is found and not Done, so
      every move with its id becomes Done. */
  lemma OfferedValidateCommits(ps: seq<Product>, ms: seq<StockMove>, m: StockMove)
    requires FindMove(ms, m.id) == Some(m) && ValidateAction in ListActions(m)
    ensures Validated(ps, ms, m.id) == (ApplyLines(ps, m, m.lines), WithStatus(ms, m.id, Done))
  {
  }

  /** An offered check is never a no-op either: the move is a delivery, so it is
      set to Ready or Waiting by the availability rule. */
  lemma OfferedCheckDecides(ps: seq<Product>, ms: seq<StockMove>, m: StockMove)
    requires FindMove(ms, m.id) == Some(m) && CheckAction in ListActions(m)
    ensures CheckedMoves(ps, ms, m.id) == WithStatus(ms, m.id, AvailabilityStatus(ps, ms, m.id, m))
  {
  }

  /** A freshly saved receipt can be validated and a freshly saved delivery
      checked, straight from the list. */
  lemma {:induction false} NewMoveOffersFirstStep(ps: seq<Product>, selectedProductId: string, quantity: int, lotNumber: string,
                                                  isEditMode: bool, editingId: Option<string>, form: StockMove,
                                                  newMoveId: string, newLineId: string, refSuffix: string, today: string)
    requires SaveMove(ps, selectedProductId, quantity, lotNumber, isEditMode, editingId, form, newMoveId, newLineId, refSuffix, today).AddNew?
    ensures var m := SaveMove(ps, selectedProductId, quantity, lotNumber, isEditMode, editingId, form, newMoveId, newLineId, refSuffix, today).move;
      && (m.opType == Receipt ==> ValidateAction in ListActions(m))
      && (m.opType == Delivery ==> CheckAction in ListActions(m))
  {
  }
}
