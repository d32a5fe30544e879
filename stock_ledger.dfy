/** The stock ledger page: every line of every move as one row, a case-insensitive
    search over the row's texts, and the CSV export with its own signed quantity. */
module StockLedger {
  import opened Types
  import opened Text
  import opened Seqs
  import opened Accounting
  import opened Csv
  import opened ProductsPage

  datatype LedgerRow = LedgerRow(move: StockMove, line: StockMoveLine)

  /** The rows of one move, in line order. */
  function LineRows(m: StockMove): (r: seq<LedgerRow>)
    ensures |r| == |m.lines|
    ensures forall j :: 0 <= j < |m.lines| ==> r[j] == LedgerRow(m, m.lines[j])
  {
    seq(|m.lines|, j requires 0 <= j < |m.lines| => LedgerRow(m, m.lines[j]))
  }

  /** Moves flattened to rows: move order first, then line order. */
  function AllRows(ms: seq<StockMove>): seq<LedgerRow> {
    if ms == [] then [] else LineRows(ms[0]) + AllRows(ms[1..])
  }

  /** How many lines the moves hold together. */
  function TotalLines(ms: seq<StockMove>): nat {
    if ms == [] then 0 else |ms[0].lines| + TotalLines(ms[1..])
  }

  /** One row per line. */
  lemma {:induction false} RowCount(ms: seq<StockMove>)
    ensures |AllRows(ms)| == TotalLines(ms)
  {
    if ms != [] {
      RowCount(ms[1..]);
    }
  }

  /** Line `j` of move `i` is row `TotalLines(ms[..i]) + j`: the rows follow the
      moves' order and, within a move, its lines' order. */
  lemma {:induction false} RowOfLine(ms: seq<StockMove>, i: nat, j: nat)
    requires i < |ms| && j < |ms[i].lines|
    ensures TotalLines(ms[..i]) + j < |AllRows(ms)|
    ensures AllRows(ms)[TotalLines(ms[..i]) + j] == LedgerRow(ms[i], ms[i].lines[j])
  {
    RowCount(ms);
    RowCount(ms[1..]);
    if i == 0 {
      assert ms[..0] == [];
      assert AllRows(ms)[j] == LineRows(ms[0])[j];
    } else {
      RowOfLine(ms[1..], i - 1, j);
      var before := ms[..i];
      assert before[1..] == ms[1..][..i - 1];
      assert TotalLines(before) == |ms[0].lines| + TotalLines(ms[1..][..i - 1]);
      var k := TotalLines(ms[1..][..i - 1]) + j;
      assert AllRows(ms)[|ms[0].lines| + k] == AllRows(ms[1..])[k];
    }
  }

  /** Every row is a line of one of the moves, paired with that move. */
  lemma {:induction false} AllRowsFromMoves(ms: seq<StockMove>)
    ensures forall r :: r in AllRows(ms) ==> r.move in ms && r.line in r.move.lines
  {
    if ms != [] {
      AllRowsFromMoves(ms[1..]);
      forall r | r in AllRows(ms)
        ensures r.move in ms && r.line in r.move.lines
      {
        if r in LineRows(ms[0]) {
          var j :| 0 <= j < |ms[0].lines| && LineRows(ms[0])[j] == r;
        } else {
          assert r in AllRows(ms[1..]);
        }
      }
    }
  }

  /** The search over a row, given the lower-cased term: reference, contact,
      product name, lot and status label, each lower-cased. */
  predicate RowMatches(lowerTerm: string, r: LedgerRow) {
    Contains(Lower(r.move.reference), lowerTerm)
    || Contains(Lower(OrEmpty(r.move.contact)), lowerTerm)
    || Contains(Lower(r.line.productName), lowerTerm)
    || Contains(Lower(OrEmpty(r.line.lotNumber)), lowerTerm)
    || Contains(Lower(r.move.status.Label()), lowerTerm)
  }

  function RowKept(lowerTerm: string): LedgerRow -> bool {
    (r: LedgerRow) => lowerTerm == "" || RowMatches(lowerTerm, r)
  }

  /** The rows the page lists for a (debounced) search term: a row is listed
      exactly when the term is empty or one of its texts contains the lower-cased
      term. */
  function FilteredRows(ms: seq<StockMove>, term: string): (rows: seq<LedgerRow>)
    ensures |rows| <= |AllRows(ms)|
    ensures forall r :: r in rows <==> r in AllRows(ms) && (term == "" || RowMatches(Lower(term), r))
  {
    assert Lower(term) == "" <==> term == "";
    Filter(AllRows(ms), RowKept(Lower(term)))
  }

  /** An empty search lists every row, in order. */
  lemma EmptySearchListsAllRows(ms: seq<StockMove>)
    ensures FilteredRows(ms, "") == AllRows(ms)
  {
    FilterKeepsAll(AllRows(ms), RowKept(Lower("")));
  }

  /** The search does not depend on the case of the term. */
  lemma LedgerSearchIgnoresCase(ms: seq<StockMove>, term: string)
    ensures FilteredRows(ms, Lower(term)) == FilteredRows(ms, term)
  {
    LowerIdempotent(term);
  }

  /** Searching for a move's reference lists every line of that move. */
  lemma ReferenceSearchListsMove(ms: seq<StockMove>, i: nat)
    requires i < |ms|
    ensures forall j :: 0 <= j < |ms[i].lines| ==> LedgerRow(ms[i], ms[i].lines[j]) in FilteredRows(ms, ms[i].reference)
  {
    forall j | 0 <= j < |ms[i].lines|
      ensures LedgerRow(ms[i], ms[i].lines[j]) in AllRows(ms)
    {
      RowOfLine(ms, i, j);
    }
    ContainsItself(Lower(ms[i].reference));
  }

  /** Searching for a status label lists every row of a move in that status. */
  lemma StatusSearchListsRows(ms: seq<StockMove>, st: OperationStatus)
    ensures forall r :: r in AllRows(ms) && r.move.status == st ==> r in FilteredRows(ms, st.Label())
  {
    ContainsItself(Lower(st.Label()));
  }

  /** The export's sign: a receipt, or an adjustment whose destination is exactly
      `WH/Stock`, counts as incoming; every other row is signed '-'. */
  predicate LedgerIncoming(m: StockMove)
    ensures m.opType == Delivery || m.opType == Internal ==> !LedgerIncoming(m)
    ensures m.opType == Adjustment && m.destLocation != WarehouseStock ==> !LedgerIncoming(m)
  {
    m.opType == Receipt || (m.opType == Adjustment && m.destLocation == WarehouseStock)
  }

  /** The Quantity column: '+' exactly for a ledger-incoming move, and digits
      that read back as the line's quantity when it is not negative. */
  function SignedQuantity(r: LedgerRow): (s: string)
    ensures |s| >= 2 && (s[0] == '+' <==> LedgerIncoming(r.move))
    ensures r.line.quantity >= 0 ==> ParseNat(s[1..]) == r.line.quantity
  {
    if r.line.quantity >= 0 then SignedTextReadsBack(LedgerIncoming(r.move), r.line.quantity); SignedText(LedgerIncoming(r.move), r.line.quantity)
    else SignedText(LedgerIncoming(r.move), r.line.quantity)
  }

  const Headers: seq<string> := ["Reference", "Date", "Contact", "Product", "Lot/Serial", "From Location", "To Location", "Quantity", "Status"]

  /** The nine fields exported for a row, before escaping. */
  function RowFields(r: LedgerRow): (fields: seq<string>)
    ensures RecordOf(fields, r)
  {
    [r.move.reference, r.move.date, OrEmpty(r.move.contact), r.line.productName, OrEmpty(r.line.lotNumber),
     r.move.sourceLocation, r.move.destLocation, SignedQuantity(r), r.move.status.Label()]
  }

  function ExportRows(rows: seq<LedgerRow>): (r: seq<seq<string>>)
    ensures |r| == |rows|
    ensures forall i :: 0 <= i < |rows| ==> r[i] == RowFields(rows[i])
  {
    seq(|rows|, i requires 0 <= i < |rows| => RowFields(rows[i]))
  }

  /** The text of the downloaded file for a search term: the header line, then a
      line feed exactly when some row is listed. */
  function ExportCsv(ms: seq<StockMove>, term: string): (csv: string)
    ensures StartsWith(csv, Join(Headers, ','))
    ensures FilteredRows(ms, term) != [] <==> |csv| > |Join(Headers, ',')| && csv[|Join(Headers, ',')|] == '\n'
  {
    var rows := FilteredRows(ms, term);
    var records := ExportRows(rows);
    assert rows != [] <==> records != [];
    Document(Headers, records)
  }

  lemma HeadersArePlain()
    ensures forall i, j :: 0 <= i < |Headers| && 0 <= j < |Headers[i]| ==> Headers[i][j] != ',' && Headers[i][j] != '\n'
  {
  }

  /** What a record read back from the export says about its row. */
  predicate RecordOf(rec: seq<string>, r: LedgerRow) {
    |rec| == |Headers|
    && rec[0] == r.move.reference
    && rec[1] == r.move.date
    && rec[2] == OrEmpty(r.move.contact)
    && rec[3] == r.line.productName
    && rec[4] == OrEmpty(r.line.lotNumber)
    && rec[5] == r.move.sourceLocation
    && rec[6] == r.move.destLocation
    && |rec[7]| > 0 && rec[7][0] == (if LedgerIncoming(r.move) then '+' else '-')
    && (r.line.quantity >= 0 ==> ParseNat(rec[7][1..]) == r.line.quantity)
    && rec[8] == r.move.status.Label()
  }

  /** The export reads back as the headers and one record per listed row, in
      order: the record holds the row's reference, date, contact, product name,
      lot, source and destination, its signed quantity (whose sign is the ledger's
      incoming rule and whose digits give back a non-negative quantity) and its
      status label. */
  lemma ExportRoundTrip(ms: seq<StockMove>, term: string)
    ensures ParseDocument(ExportCsv(ms, term)) == Some((Headers, ExportRows(FilteredRows(ms, term))))
    ensures var parsed := ParseDocument(ExportCsv(ms, term));
            var rows := FilteredRows(ms, term);
            parsed.Some? && parsed.value.0 == Headers && |parsed.value.1| == |rows|
            && forall i :: 0 <= i < |rows| ==> RecordOf(parsed.value.1[i], rows[i])
  {
    var rows := FilteredRows(ms, term);
    var records := ExportRows(rows);
    HeadersArePlain();
    DocumentRoundTrip(Headers, records);
  }

  /** The three sign rules of the system part ways. An adjustment from the
      adjustment location into a shelf below `WH/Stock` raises on-hand stock and is
      '+' in a product's history, but '-' in the ledger export; so is a delivery
      order whose source is not a warehouse and whose destination is `WH/Stock`. */
  lemma SignRulesDisagree()
    ensures var m := StockMove("m1", "INV/ADJ/1", Adjustment, Done, None, None, AdjustmentLocation, "WH/Stock/Shelf 1", "2024-01-01", []);
            StockDelta(m, 5) == 5 && HistoryIncoming(m) && !LedgerIncoming(m)
    ensures var m := StockMove("m2", "WH/OUT/1", Delivery, Done, None, None, "Vendor", WarehouseStock, "2024-01-01", []);
            StockDelta(m, 5) == 5 && HistoryIncoming(m) && !LedgerIncoming(m)
  {
    assert "WH/Stock/Shelf 1"[..8] == WarehouseStock;
    LacksFirstChar("Vendor", "WH/");
    assert WarehouseStock[..3] == "WH/";
  }

  lemma StockLocationNames()
    ensures Contains(WarehouseStock, WarehouseStock)
    ensures !Contains(AdjustmentLocation, WarehouseStock)
  {
    ContainsItself(WarehouseStock);
    LacksFirstChar(AdjustmentLocation, WarehouseStock);
  }

  /** A quick adjustment is signed the same way by all three rules: into
      `WH/Stock` when the count went up, out of it when it went down, and its one
      line moves on-hand stock by exactly the difference. */
  lemma QuickAdjustmentSignsAgree(p: Product, diff: int, moveId: string, refSuffix: string, date: string, lineId: string)
    requires diff != 0
    ensures var m := AdjustmentMove(p, diff, moveId, refSuffix, date, lineId);
            (LedgerIncoming(m) <==> diff > 0)
            && (HistoryIncoming(m) <==> diff > 0)
            && StockDelta(m, m.lines[0].quantity) == diff
  {
    StockLocationNames();
  }

  /** A receipt from outside the warehouses, and a delivery from a warehouse to
      outside them, are signed alike by all three rules. */
  lemma StandardFlowsAgree(m: StockMove, q: int)
    requires m.opType == Receipt || m.opType == Delivery
    requires m.opType == Receipt ==> !IsWarehouse(m.sourceLocation)
    requires m.opType == Delivery ==> IsWarehouse(m.sourceLocation) && !IsWarehouse(m.destLocation)
    ensures m.opType == Receipt ==> StockDelta(m, q) == q && LedgerIncoming(m) && HistoryIncoming(m)
    ensures m.opType == Delivery ==> StockDelta(m, q) == -q && !LedgerIncoming(m) && !HistoryIncoming(m)
  {
    if m.opType == Delivery {
      MissingPrefix(m.destLocation, WarehouseStock, "WH/");
    }
  }
}
