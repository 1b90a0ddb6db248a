/** Bank-statement table pipeline
    (src/inukai/validate/bank_statement_validation.py): the table rebuilt from
    Textract cell blocks, the header/data split, header classification,
    cost normalisation, the row filter and the resulting criterion. */
module BankStatementValidation {
  import opened Results
  import Text
  import Sorting
  import opened Textract
  import opened ValidationClasses

  // ---------------------------------------------------------------------
  // parse_textract_table
  // ---------------------------------------------------------------------

  /** The CELL blocks, in response order. */
  function Cells(blocks: seq<Block>): (cells: seq<Block>)
    ensures forall c | c in cells :: c.Cell? && c in blocks
    ensures forall b | b in blocks && b.Cell? :: b in cells
  {
    if blocks == [] then []
    else (if blocks[0].Cell? then [blocks[0]] else []) + Cells(blocks[1..])
  }

  /** The WORD and LINE texts by block id; a later block with the same id
      replaces an earlier one, as in a dict comprehension. */
  function Items(blocks: seq<Block>): (items: map<string, string>)
    ensures forall id :: id in items <==> exists b | b in blocks :: (b.Word? || b.Line?) && b.id == id
  {
    if blocks == [] then map[]
    else
      var front, b := blocks[..|blocks| - 1], blocks[|blocks| - 1];
      assert forall x | x in front :: x in blocks;
      assert blocks == front + [b];
      if b.Word? || b.Line? then Items(front)[b.id := b.text] else Items(front)
  }

  /** The text a list of child ids contributes: each known item's text
      followed by one space, in Ids order. */
  function IdsText(ids: seq<string>, items: map<string, string>): string {
    if ids == [] then ""
    else
      var last := ids[|ids| - 1];
      IdsText(ids[..|ids| - 1], items) + (if last in items then items[last] + " " else "")
  }

  /** The text the relationships of a cell contribute: only "CHILD" ones count. */
  function RelationshipsText(rels: seq<Relationship>, items: map<string, string>): string {
    if rels == [] then ""
    else
      var last := rels[|rels| - 1];
      RelationshipsText(rels[..|rels| - 1], items) + (if last.relType == "CHILD" then IdsText(last.ids, items) else "")
  }

  /** The stripped text of one cell. */
  function CellText(cell: Block, items: map<string, string>): (text: string)
    requires cell.Cell?
    ensures cell.relationships.None? ==> text == ""
    ensures text == [] || (!Text.IsSpace(text[0]) && !Text.IsSpace(text[|text| - 1]))
  {
    match cell.relationships
    case None => Text.Strip("")
    case Some(rels) => Text.Strip(RelationshipsText(rels, items))
  }

  /** The nested loops that build one cell's text with `text +=`, then strip it. */
  method CellTextOf(cell: Block, items: map<string, string>) returns (text: string)
    requires cell.Cell?
    ensures text == CellText(cell, items)
  {
    text := "";
    if cell.relationships.Some? {
      var rels := cell.relationships.value;
      for r := 0 to |rels|
        invariant text == RelationshipsText(rels[..r], items)
      {
        assert rels[..r + 1][..r] == rels[..r];
        if rels[r].relType == "CHILD" {
          var ids := rels[r].ids;
          for j := 0 to |ids|
            invariant text == RelationshipsText(rels[..r], items) + IdsText(ids[..j], items)
          {
            assert ids[..j + 1][..j] == ids[..j];
            if ids[j] in items {
              text := text + items[ids[j]] + " ";
            }
          }
          assert ids[..|ids|] == ids;
        }
      }
      assert rels[..|rels|] == rels;
    }
    text := Text.Strip(text);
  }

  lemma {:induction false} IdsTextConcat(a: seq<string>, b: seq<string>, items: map<string, string>)
    ensures IdsText(a + b, items) == IdsText(a, items) + IdsText(b, items)
    decreases |b|
  {
    if b == [] {
      assert a + b == a;
    } else {
      var front := b[..|b| - 1];
      assert (a + b)[..|a + b| - 1] == a + front;
      IdsTextConcat(a, front, items);
    }
  }

  /** A child id that names no WORD or LINE block is skipped. */
  lemma UnknownIdIsSkipped(a: seq<string>, x: string, b: seq<string>, items: map<string, string>)
    requires x !in items
    ensures IdsText(a + [x] + b, items) == IdsText(a + b, items)
  {
    IdsTextConcat(a + [x], b, items);
    IdsTextConcat(a, [x], items);
    IdsTextConcat(a, b, items);
    assert IdsText([x], items) == IdsText([], items) + "";
  }

  /** table_data: row index to (column index to text); a later cell with the
      same row and column replaces the earlier text. */
  function Grid(cells: seq<Block>, items: map<string, string>): map<int, map<int, string>>
    requires forall c | c in cells :: c.Cell?
  {
    if cells == [] then map[]
    else
      var front, c := cells[..|cells| - 1], cells[|cells| - 1];
      assert forall x | x in front :: x in cells;
      var g := Grid(front, items);
      var row := if c.rowIndex in g then g[c.rowIndex] else map[];
      g[c.rowIndex := row[c.columnIndex := CellText(c, items)]]
  }

  /** table_data has a row for each RowIndex of a cell, and that row has a
      column for each ColumnIndex of a cell in it, and nothing else. */
  lemma GridKeys(cells: seq<Block>, items: map<string, string>)
    requires forall c | c in cells :: c.Cell?
    ensures forall r :: r in Grid(cells, items) <==> exists c | c in cells :: c.rowIndex == r
    ensures forall r, k | r in Grid(cells, items) ::
              k in Grid(cells, items)[r] <==> exists c | c in cells :: c.rowIndex == r && c.columnIndex == k
  {
    GridRowKeys(cells, items);
    GridColumnKeys(cells, items);
    forall r
      ensures r in Grid(cells, items) <==> exists c | c in cells :: c.rowIndex == r
    {
      assert r in Grid(cells, items) <==> HasRow(cells, r);
    }
    forall r, k | r in Grid(cells, items)
      ensures k in Grid(cells, items)[r] <==> exists c | c in cells :: c.rowIndex == r && c.columnIndex == k
    {
      assert k in Grid(cells, items)[r] <==> HasCell(cells, r, k);
    }
  }

  /** Some cell of the list is in row r. */
  predicate HasRow(cells: seq<Block>, r: int)
    requires forall c | c in cells :: c.Cell?
  {
    exists c | c in cells :: c.rowIndex == r
  }

  lemma HasRowSnoc(front: seq<Block>, last: Block, r: int)
    requires forall c | c in front + [last] :: c.Cell?
    ensures HasRow(front + [last], r) <==> HasRow(front, r) || last.rowIndex == r
  {
    if HasRow(front + [last], r) && last.rowIndex != r {
      var c :| c in front + [last] && c.rowIndex == r;
      assert c in front;
    }
    if HasRow(front, r) {
      var c :| c in front && c.rowIndex == r;
      assert c in front + [last];
    }
  }

  lemma {:induction false} GridRowKeys(cells: seq<Block>, items: map<string, string>)
    requires forall c | c in cells :: c.Cell?
    ensures forall r :: r in Grid(cells, items) <==> HasRow(cells, r)
  {
    if cells != [] {
      var front, last := cells[..|cells| - 1], cells[|cells| - 1];
      assert forall x | x in front :: x in cells;
      assert cells == front + [last];
      GridRowKeys(front, items);
      var g := Grid(front, items);
      var row := if last.rowIndex in g then g[last.rowIndex] else map[];
      assert Grid(cells, items) == g[last.rowIndex := row[last.columnIndex := CellText(last, items)]];
      forall r
        ensures r in Grid(cells, items) <==> HasRow(cells, r)
      {
        HasRowSnoc(front, last, r);
      }
    }
  }

  /** Some cell of the list sits at row r, column k. */
  predicate HasCell(cells: seq<Block>, r: int, k: int)
    requires forall c | c in cells :: c.Cell?
  {
    exists c | c in cells :: c.rowIndex == r && c.columnIndex == k
  }

  lemma HasCellSnoc(front: seq<Block>, last: Block, r: int, k: int)
    requires forall c | c in front + [last] :: c.Cell?
    ensures HasCell(front + [last], r, k) <==>
              HasCell(front, r, k) || (last.rowIndex == r && last.columnIndex == k)
  {
    if HasCell(front + [last], r, k) && !(last.rowIndex == r && last.columnIndex == k) {
      var c :| c in front + [last] && c.rowIndex == r && c.columnIndex == k;
      assert c in front;
    }
    if HasCell(front, r, k) {
      var c :| c in front && c.rowIndex == r && c.columnIndex == k;
      assert c in front + [last];
    }
  }

  lemma {:induction false} GridColumnKeys(cells: seq<Block>, items: map<string, string>)
    requires forall c | c in cells :: c.Cell?
    ensures forall r, k | r in Grid(cells, items) :: k in Grid(cells, items)[r] <==> HasCell(cells, r, k)
  {
    if cells != [] {
      var front, last := cells[..|cells| - 1], cells[|cells| - 1];
      assert forall x | x in front :: x in cells;
      assert cells == front + [last];
      GridColumnKeys(front, items);
      var g, g' := Grid(front, items), Grid(cells, items);
      forall r, k | r in g'
        ensures k in g'[r] <==> HasCell(cells, r, k)
      {
        HasCellSnoc(front, last, r, k);
        if r == last.rowIndex {
          var row := if r in g then g[r] else map[];
          assert g'[r] == row[last.columnIndex := CellText(last, items)];
          if r !in g {
            GridRowKeys(front, items);
            assert !HasRow(front, r);
            assert !HasCell(front, r, k);
          }
        } else {
          assert r in g && g'[r] == g[r];
        }
      }
    }
  }

  /** Adding one cell sets its own position and leaves every other filled
      position as it was. */
  lemma GridStep(cells: seq<Block>, items: map<string, string>, r: int, k: int)
    requires forall c | c in cells :: c.Cell?
    requires cells != []
    ensures var front, last := cells[..|cells| - 1], cells[|cells| - 1];
            assert forall x | x in front :: x in cells;
            var g, g' := Grid(front, items), Grid(cells, items);
            && (r == last.rowIndex && k == last.columnIndex ==>
                  r in g' && k in g'[r] && g'[r][k] == CellText(last, items))
            && (r in g && k in g[r] && (r != last.rowIndex || k != last.columnIndex) ==>
                  r in g' && k in g'[r] && g'[r][k] == g[r][k])
  {
    var front, last := cells[..|cells| - 1], cells[|cells| - 1];
    assert forall x | x in front :: x in cells;
    var g := Grid(front, items);
    var row := if last.rowIndex in g then g[last.rowIndex] else map[];
    assert Grid(cells, items) == g[last.rowIndex := row[last.columnIndex := CellText(last, items)]];
  }

  /** The last cell at a position decides that position's text. */
  lemma {:induction false} GridLastCellWins(cells: seq<Block>, items: map<string, string>, k: nat)
    requires forall c | c in cells :: c.Cell?
    requires k < |cells|
    requires forall j | k < j < |cells| ::
               cells[j].rowIndex != cells[k].rowIndex || cells[j].columnIndex != cells[k].columnIndex
    ensures cells[k].rowIndex in Grid(cells, items)
    ensures cells[k].columnIndex in Grid(cells, items)[cells[k].rowIndex]
    ensures Grid(cells, items)[cells[k].rowIndex][cells[k].columnIndex] == CellText(cells[k], items)
  {
    var front := cells[..|cells| - 1];
    assert forall x | x in front :: x in cells;
    GridStep(cells, items, cells[k].rowIndex, cells[k].columnIndex);
    if k < |cells| - 1 {
      assert forall j | k < j < |front| :: front[j] == cells[j];
      GridLastCellWins(front, items, k);
      assert front[k] == cells[k];
    }
  }

  /** The texts of a row at its first n listed columns, in that order. */
  function Project(row: map<int, string>, cols: seq<int>, n: nat): (r: seq<string>)
    requires n <= |cols| && forall c | c in cols :: c in row
    ensures |r| == n
  {
    if n == 0 then [] else Project(row, cols, n - 1) + [row[cols[n - 1]]]
  }

  /** One row of the output: the texts of a row in ascending column order. */
  function RowOf(row: map<int, string>): (r: seq<string>)
    ensures |r| == |row.Keys|
  {
    var cols := Sorting.SortedKeys(row.Keys);
    Project(row, cols, |cols|)
  }

  /** The first n rows of a table at the listed row indices. */
  function Rows(g: map<int, map<int, string>>, keys: seq<int>, n: nat): (rows: seq<seq<string>>)
    requires n <= |keys| && forall k | k in keys :: k in g
    ensures |rows| == n
  {
    if n == 0 then [] else Rows(g, keys, n - 1) + [RowOf(g[keys[n - 1]])]
  }

  /** table_rows: the rows in ascending row order, each in ascending column
      order. */
  function TableRows(g: map<int, map<int, string>>): (rows: seq<seq<string>>)
    ensures |rows| == |g.Keys|
  {
    var keys := Sorting.SortedKeys(g.Keys);
    Rows(g, keys, |keys|)
  }

  /** parse_textract_table: fill table_data cell by cell, then read it back
      in sorted order. */
  method ParseTextractTable(blocks: seq<Block>) returns (rows: seq<seq<string>>)
    ensures rows == TableRows(Grid(Cells(blocks), Items(blocks)))
  {
    var table := FillTable(Cells(blocks), Items(blocks));
    rows := ReadTable(table);
  }

  /** The cell loop of parse_textract_table. */
  method FillTable(cells: seq<Block>, items: map<string, string>) returns (table: map<int, map<int, string>>)
    requires forall c | c in cells :: c.Cell?
    ensures table == Grid(cells, items)
  {
    table := map[];
    for i := 0 to |cells|
      invariant table == Grid(cells[..i], items)
    {
      var cell := cells[i];
      var row, col := cell.rowIndex, cell.columnIndex;
      var text := CellTextOf(cell, items);
      assert cells[..i + 1][..i] == cells[..i];
      var rowData := if row in table then table[row] else map[];
      table := table[row := rowData[col := text]];
    }
    assert cells[..|cells|] == cells;
  }

  /** The read-back loops of parse_textract_table over the sorted keys. */
  method ReadTable(table: map<int, map<int, string>>) returns (rows: seq<seq<string>>)
    ensures rows == TableRows(table)
  {
    rows := [];
    var keys := Sorting.SortedKeys(table.Keys);
    for i := 0 to |keys|
      invariant rows == Rows(table, keys, i)
    {
      var rowData := ReadRow(table[keys[i]]);
      rows := rows + [rowData];
    }
  }

  /** The inner read-back loop: one row's texts in ascending column order. */
  method ReadRow(row: map<int, string>) returns (rowData: seq<string>)
    ensures rowData == RowOf(row)
  {
    rowData := [];
    var cols := Sorting.SortedKeys(row.Keys);
    for j := 0 to |cols|
      invariant rowData == Project(row, cols, j)
    {
      rowData := rowData + [row[cols[j]]];
    }
  }

  /** The RowIndex values of the CELL blocks. */
  function RowIndices(blocks: seq<Block>): (s: set<int>)
    ensures forall r :: r in s <==> exists b | b in blocks :: b.Cell? && b.rowIndex == r
  {
    if blocks == [] then {}
    else (if blocks[0].Cell? then {blocks[0].rowIndex} else {}) + RowIndices(blocks[1..])
  }

  /** One output row per distinct RowIndex among the CELL blocks. */
  lemma OneRowPerRowIndex(blocks: seq<Block>)
    ensures |ParsedRows(blocks)| == |RowIndices(blocks)|
  {
    var g := Grid(Cells(blocks), Items(blocks));
    GridKeys(Cells(blocks), Items(blocks));
    forall r
      ensures r in g.Keys <==> r in RowIndices(blocks)
    {
    }
    assert g.Keys == RowIndices(blocks);
  }

  /** The value ParseTextractTable returns. */
  function ParsedRows(blocks: seq<Block>): seq<seq<string>> {
    TableRows(Grid(Cells(blocks), Items(blocks)))
  }

  /** Entry j of a projection is the text at the j-th listed column. */
  lemma {:induction false} ProjectAt(row: map<int, string>, cols: seq<int>, n: nat)
    requires n <= |cols| && forall c | c in cols :: c in row
    ensures forall j | 0 <= j < n :: Project(row, cols, n)[j] == row[cols[j]]
  {
    if n > 0 {
      ProjectAt(row, cols, n - 1);
      assert Project(row, cols, n) == Project(row, cols, n - 1) + [row[cols[n - 1]]];
    }
  }

  /** Row i of a read-back is the row at the i-th listed row index. */
  lemma {:induction false} RowAt(g: map<int, map<int, string>>, keys: seq<int>, n: nat, i: nat)
    requires n <= |keys| && forall k | k in keys :: k in g
    requires i < n
    ensures Rows(g, keys, n)[i] == RowOf(g[keys[i]])
  {
    if i < n - 1 {
      RowAt(g, keys, n - 1, i);
      assert Rows(g, keys, n)[i] == Rows(g, keys, n - 1)[i];
    }
  }

  /** A row reads back as the texts of its columns, smallest ColumnIndex
      first, each column once. */
  lemma RowOfOrder(row: map<int, string>)
    ensures var cols := Sorting.SortedKeys(row.Keys);
            && (forall i, j | 0 <= i < j < |cols| :: cols[i] < cols[j])
            && forall j | 0 <= j < |cols| :: RowOf(row)[j] == row[cols[j]]
  {
    var cols := Sorting.SortedKeys(row.Keys);
    Sorting.SortedKeysAscending(row.Keys);
    ProjectAt(row, cols, |cols|);
  }

  /** parse_textract_table's output order: row i is the row of the i-th
      smallest RowIndex among the CELL blocks, and the row indices so listed
      are exactly those of the CELL blocks, each once. */
  lemma ParsedRowsOrder(blocks: seq<Block>)
    ensures var g := Grid(Cells(blocks), Items(blocks));
            var ks := Sorting.SortedKeys(g.Keys);
            && (forall i, j | 0 <= i < j < |ks| :: ks[i] < ks[j])
            && (forall r :: r in ks <==> r in RowIndices(blocks))
            && |ParsedRows(blocks)| == |ks|
            && forall i | 0 <= i < |ks| :: ParsedRows(blocks)[i] == RowOf(g[ks[i]])
  {
    var g := Grid(Cells(blocks), Items(blocks));
    var ks := Sorting.SortedKeys(g.Keys);
    Sorting.SortedKeysAscending(g.Keys);
    GridKeys(Cells(blocks), Items(blocks));
    forall i | 0 <= i < |ks|
      ensures ParsedRows(blocks)[i] == RowOf(g[ks[i]])
    {
      RowAt(g, ks, |ks|, i);
    }
  }

  // ---------------------------------------------------------------------
  // table_to_dataframe
  // ---------------------------------------------------------------------

  /** A DataFrame: its column labels and its rows of cells. A None cell is
      one that pandas filled in because the row was shorter than the widest
      data row. */
  datatype Frame = Frame(columns: seq<string>, rows: seq<seq<Option<string>>>)

  /** Every row has one cell per column. */
  predicate Rectangular(f: Frame) {
    forall row | row in f.rows :: |row| == |f.columns|
  }

  /** The length of the longest row, 0 for no rows. */
  function MaxWidth(rows: seq<seq<string>>): (w: nat)
    ensures forall row | row in rows :: |row| <= w
    ensures rows != [] ==> exists row | row in rows :: |row| == w
  {
    if rows == [] then 0
    else
      var rest := MaxWidth(rows[1..]);
      assert forall row | row in rows[1..] :: row in rows;
      if |rows[0]| >= rest then |rows[0]| else rest
  }

  /** A row extended with missing cells up to the given width. */
  function Pad(row: seq<string>, width: nat): seq<Option<string>>
    requires |row| <= width
  {
    seq(width, j requires 0 <= j < width => if j < |row| then Some(row[j]) else None)
  }

  /** table_to_dataframe: the first row gives the column labels and the
      remaining rows the data. pandas rejects data whose widest row does not
      match the number of labels, and an empty table has no first row. */
  function TableToFrame(table: seq<seq<string>>): (r: Result<Frame>)
    ensures table == [] ==> r == Err(EmptyTable)
    ensures r.Err? <==> table == [] || (|table| > 1 && MaxWidth(table[1..]) != |table[0]|)
    ensures r.Ok? ==> r.value.columns == table[0] && |r.value.rows| == |table| - 1 && Rectangular(r.value)
    ensures r.Ok? ==> forall k, j | 0 <= k < |r.value.rows| && 0 <= j < |table[0]| ::
                        r.value.rows[k][j] == if j < |table[k + 1]| then Some(table[k + 1][j]) else None
  {
    if table == [] then Err(EmptyTable)
    else
      var headers, data := table[0], table[1..];
      if data != [] && MaxWidth(data) != |headers| then Err(ColumnCountMismatch(|headers|, MaxWidth(data)))
      else
        Ok(Frame(headers, seq(|data|, k requires 0 <= k < |data| => Pad(data[k], |headers|))))
  }

  // ---------------------------------------------------------------------
  // map_headers
  // ---------------------------------------------------------------------

  /** The three standard labels a header can be mapped to. */
  datatype Category = DateHeader | DescriptionHeader | CostHeader

  /** The label the renamed column carries. */
  function CategoryName(c: Category): string {
    match c
    case DateHeader => "Date"
    case DescriptionHeader => "Description"
    case CostHeader => "Cost"
  }

  const DateKeywords: set<string> := {"date"}

  const DescriptionKeywords: set<string> := {"description", "detail"}

  const CostKeywords: set<string> :=
    {"out", "paid out", "money out", "debit", "payment", "withdrawal", "expense", "spent",
     "charge", "outflow", "amount deducted", "transfer out", "outgoing", "cost", "disbursement"}

  /** Some keyword occurs in the lower-cased header. */
  predicate HasKeyword(header: string, keywords: set<string>) {
    exists k | k in keywords :: Text.Contains(Text.Lower(header), k)
  }

  /** The if/elif chain of map_headers: Date first, then Description, then
      Cost; None for a header that matches no keyword. */
  function Classify(header: string): (c: Option<Category>)
    ensures c.Some? ==> header != ""
  {
    if HasKeyword(header, DateKeywords) then Some(DateHeader)
    else if HasKeyword(header, DescriptionKeywords) then Some(DescriptionHeader)
    else if HasKeyword(header, CostKeywords) then Some(CostHeader)
    else None
  }

  /** header_mapping once the loop has seen the given headers: a classified
      header replaces the one stored earlier for its category. */
  function Mapping(headers: seq<string>): (m: map<Category, string>)
    ensures forall c | c in m :: Classify(m[c]) == Some(c)
  {
    if headers == [] then map[]
    else
      var m, h := Mapping(headers[..|headers| - 1]), headers[|headers| - 1];
      match Classify(h)
      case None => m
      case Some(c) => m[c := h]
  }

  /** The returned dict {value: key}: each stored header to its category. */
  function Invert(m: map<Category, string>): map<string, Category> {
    var a := if DateHeader in m then map[m[DateHeader] := DateHeader] else map[];
    var b := if DescriptionHeader in m then a[m[DescriptionHeader] := DescriptionHeader] else a;
    if CostHeader in m then b[m[CostHeader] := CostHeader] else b
  }

  /** map_headers: classify each header in turn, check that no stored header
      is empty, and return the inverted mapping. The check can never fail. */
  method MapHeaders(headers: seq<string>) returns (r: Result<map<string, Category>>)
    ensures r == Ok(Invert(Mapping(headers)))
  {
    var mapping: map<Category, string> := map[];
    for i := 0 to |headers|
      invariant mapping == Mapping(headers[..i])
    {
      assert headers[..i + 1][..i] == headers[..i];
      var category := Classify(headers[i]);
      if category.Some? {
        mapping := mapping[category.value := headers[i]];
      }
    }
    assert headers[..|headers|] == headers;
    MappingClassified(headers);
    var missing := exists c | c in mapping :: mapping[c] == "";
    r := if missing then Err(MissingColumns) else Ok(Invert(mapping));
  }

  /** Every stored header is an input header of that category, and a
      category is stored exactly when some input header has it; so no stored
      header is empty. */
  lemma {:induction false} MappingClassified(headers: seq<string>)
    ensures forall c | c in Mapping(headers) ::
              Mapping(headers)[c] in headers && Classify(Mapping(headers)[c]) == Some(c) && Mapping(headers)[c] != ""
    ensures forall c :: c in Mapping(headers) <==> exists h | h in headers :: Classify(h) == Some(c)
  {
    if headers != [] {
      var front, h := headers[..|headers| - 1], headers[|headers| - 1];
      assert headers == front + [h];
      MappingClassified(front);
    }
  }

  /** Of several headers with the same category, the last one is kept. */
  lemma {:induction false} MappingLastWins(headers: seq<string>, k: nat)
    requires k < |headers| && Classify(headers[k]).Some?
    requires forall j | k < j < |headers| :: Classify(headers[j]) != Classify(headers[k])
    ensures Classify(headers[k]).value in Mapping(headers)
    ensures Mapping(headers)[Classify(headers[k]).value] == headers[k]
  {
    var front := headers[..|headers| - 1];
    if k < |headers| - 1 {
      MappingLastWins(front, k);
    }
  }

  /** Inverting a mapping whose categories hold distinct headers gives each
      stored header its own category, and nothing else. */
  lemma InvertDistinct(m: map<Category, string>)
    requires forall c1, c2 | c1 in m && c2 in m && m[c1] == m[c2] :: c1 == c2
    ensures forall c | c in m :: m[c] in Invert(m) && Invert(m)[m[c]] == c
    ensures forall h | h in Invert(m) :: exists c | c in m :: m[c] == h
  {
    var a: map<string, Category> := if DateHeader in m then map[m[DateHeader] := DateHeader] else map[];
    var b := if DescriptionHeader in m then a[m[DescriptionHeader] := DescriptionHeader] else a;
    var inv := if CostHeader in m then b[m[CostHeader] := CostHeader] else b;
    assert inv == Invert(m);
    assert a.Keys <= m.Values && b.Keys <= m.Values && inv.Keys <= m.Values;
    forall c | c in m
      ensures m[c] in inv && inv[m[c]] == c
    {
      match c
      case DateHeader =>
        assert DescriptionHeader in m ==> m[DescriptionHeader] != m[c];
        assert CostHeader in m ==> m[CostHeader] != m[c];
      case DescriptionHeader =>
        assert CostHeader in m ==> m[CostHeader] != m[c];
      case CostHeader =>
    }
  }

  /** The result of map_headers maps input headers to their own category,
      drops the headers that match no keyword, and holds a category exactly
      when some header has it. A missing category is not an error. */
  lemma MapHeadersResult(headers: seq<string>)
    ensures forall h | h in Invert(Mapping(headers)) :: h in headers && Classify(h) == Some(Invert(Mapping(headers))[h])
    ensures forall h | h in headers && Classify(h).None? :: h !in Invert(Mapping(headers))
    ensures forall c :: c in Invert(Mapping(headers)).Values <==> exists h | h in headers :: Classify(h) == Some(c)
  {
    var m := Mapping(headers);
    MappingClassified(headers);
    InvertDistinct(m);
    var inv := Invert(m);
    forall c
      ensures c in inv.Values <==> c in m
    {
      if c in inv.Values {
        var h :| h in inv && inv[h] == c;
        var c' :| c' in m && m[c'] == h;
      }
    }
  }

  // ---------------------------------------------------------------------
  // normalize_cost and normalize_df
  // ---------------------------------------------------------------------

  /** The text after "£", "$" and "," have been removed, in that order. */
  function Cleaned(s: string): (t: string)
    ensures '£' !in t && '$' !in t && ',' !in t
    ensures |t| <= |s|
  {
    Text.Remove(Text.Remove(Text.Remove(s, '£'), '$'), ',')
  }

  /** Cleaning distributes over concatenation, so each piece of the text is
      cleaned on its own. */
  lemma CleanedConcat(a: string, b: string)
    ensures Cleaned(a + b) == Cleaned(a) + Cleaned(b)
  {
    Text.RemoveConcat(a, b, '£');
    Text.RemoveConcat(Text.Remove(a, '£'), Text.Remove(b, '£'), '$');
    Text.RemoveConcat(Text.Remove(Text.Remove(a, '£'), '$'), Text.Remove(Text.Remove(b, '£'), '$'), ',');
  }

  /** Cleaning a cleaned text changes nothing. */
  lemma CleanedIdempotent(s: string)
    ensures Cleaned(Cleaned(s)) == Cleaned(s)
  {
  }

  /** normalize_cost: the empty cell is 0.0; otherwise the cleaned text must
      parse as a float. parseFloat stands for Python's float() on a str. */
  function NormalizeCost(s: string, parseFloat: string -> Option<real>): (r: Result<real>)
    ensures s == "" ==> r == Ok(0.0)
    ensures s != "" ==> (r.Ok? <==> parseFloat(Cleaned(s)).Some?)
    ensures s != "" && r.Ok? ==> r.value == parseFloat(Cleaned(s)).value
    ensures r.Err? ==> r.error == NotANumber(Cleaned(s))
  {
    if s == "" then Ok(0.0)
    else
      var cleaned := Cleaned(s);
      match parseFloat(cleaned)
      case None => Err(NotANumber(cleaned))
      case Some(x) => Ok(x)
  }

  /** Currency symbols and separators do not matter: a non-empty cost reads
      the same as its cleaned text, whenever that text is not empty. */
  lemma CostIgnoresSymbols(s: string, parseFloat: string -> Option<real>)
    requires Cleaned(s) != ""
    ensures NormalizeCost(s, parseFloat) == NormalizeCost(Cleaned(s), parseFloat)
  {
    CleanedIdempotent(s);
  }

  /** A cell holding only a currency symbol is not read as 0.0: it is
      cleaned to "", which float() rejects. */
  lemma SymbolOnlyCostFails(parseFloat: string -> Option<real>)
    requires parseFloat("") == None
    ensures NormalizeCost("£", parseFloat) == Err(NotANumber(""))
    ensures NormalizeCost("$", parseFloat) == Err(NotANumber(""))
  {
    assert Text.Remove("£", '£') == [] by {
      assert "£"[1..] == [];
    }
    assert Text.Remove("$", '$') == [] by {
      assert "$"[1..] == [];
    }
  }

  /** A calendar date, the value dateutil's parse(...).date() yields. */
  datatype CalendarDate = CalendarDate(year: int, month: int, day: int)

  /** Column labels after df.rename(columns=mapper): a mapped header takes
      its category's label, the rest keep theirs. */
  function Rename(columns: seq<string>, mapper: map<string, Category>): (renamed: seq<string>)
    ensures |renamed| == |columns|
  {
    seq(|columns|, j requires 0 <= j < |columns| =>
      if columns[j] in mapper then CategoryName(mapper[columns[j]]) else columns[j])
  }

  /** The position of the first occurrence of x. */
  function FirstIndex(s: seq<string>, x: string): (i: nat)
    requires x in s
    ensures i < |s| && s[i] == x && x !in s[..i]
  {
    if s[0] == x then 0
    else
      assert s[1..][..FirstIndex(s[1..], x)] == s[1..1 + FirstIndex(s[1..], x)];
      1 + FirstIndex(s[1..], x)
  }

  /** df[name]: the single column with that label; a missing label raises,
      and a label carried by several columns is not modelled as a column. */
  function ColumnIndex(columns: seq<string>, name: string): (r: Result<nat>)
    ensures r.Ok? ==> r.value < |columns| && columns[r.value] == name
    ensures r.Ok? ==> forall j | 0 <= j < |columns| && j != r.value :: columns[j] != name
    ensures r == Err(NoSuchColumn(name)) <==> name !in columns
    ensures r.Err? ==> r == Err(NoSuchColumn(name)) || r == Err(AmbiguousColumn(name))
  {
    if name !in columns then Err(NoSuchColumn(name))
    else
      var i := FirstIndex(columns, name);
      if name in columns[i + 1..] then Err(AmbiguousColumn(name))
      else
        assert forall j | i < j < |columns| :: columns[j] == columns[i + 1..][j - i - 1];
        Ok(i)
  }

  /** Some row has no cell in column col. */
  predicate MissingCell(rows: seq<seq<Option<string>>>, col: nat)
    requires forall row | row in rows :: col < |row|
  {
    exists k | 0 <= k < |rows| :: rows[k][col].None?
  }

  /** Some row's Cost cell is missing or does not normalise. */
  predicate BadCost(rows: seq<seq<Option<string>>>, c: nat, parseFloat: string -> Option<real>)
    requires forall row | row in rows :: c < |row|
  {
    exists k | 0 <= k < |rows| :: rows[k][c].None? || NormalizeCost(rows[k][c].value, parseFloat).Err?
  }

  /** df["Date"].apply(normalize_date): a text cell is parsed, an unparsable
      one becomes None, and a missing cell raises. */
  function DateValues(rows: seq<seq<Option<string>>>, d: nat, parseDate: string -> Option<CalendarDate>)
    : (r: Result<seq<Option<CalendarDate>>>)
    requires forall row | row in rows :: d < |row|
    ensures r.Ok? ==> |r.value| == |rows|
    ensures r.Err? ==> r.error == MissingDateCell
  {
    if rows == [] then Ok([])
    else
      assert forall row | row in rows[1..] :: row in rows;
      match rows[0][d]
      case None => Err(MissingDateCell)
      case Some(text) =>
        match DateValues(rows[1..], d, parseDate)
        case Err(e) => Err(e)
        case Ok(rest) => Ok([parseDate(text)] + rest)
  }

  /** The Date column converts exactly when no row lacks its Date cell, and
      then each row's value is its cell parsed. */
  lemma {:induction false} DateValuesSpec(rows: seq<seq<Option<string>>>, d: nat, parseDate: string -> Option<CalendarDate>)
    requires forall row | row in rows :: d < |row|
    ensures DateValues(rows, d, parseDate).Ok? <==> forall k | 0 <= k < |rows| :: rows[k][d].Some?
    ensures DateValues(rows, d, parseDate).Ok? ==>
              forall k | 0 <= k < |rows| :: DateValues(rows, d, parseDate).value[k] == parseDate(rows[k][d].value)
  {
    if rows != [] {
      assert forall row | row in rows[1..] :: row in rows;
      assert forall k | 1 <= k < |rows| :: rows[k] == rows[1..][k - 1];
      DateValuesSpec(rows[1..], d, parseDate);
    }
  }

  /** df["Cost"].apply(normalize_cost): every cell must be a text that
      normalises; the first row that does not decides the error. */
  function CostValues(rows: seq<seq<Option<string>>>, c: nat, parseFloat: string -> Option<real>)
    : (r: Result<seq<real>>)
    requires forall row | row in rows :: c < |row|
    ensures r.Ok? ==> |r.value| == |rows|
  {
    if rows == [] then Ok([])
    else
      assert forall row | row in rows[1..] :: row in rows;
      match rows[0][c]
      case None => Err(MissingCostCell)
      case Some(text) =>
        match NormalizeCost(text, parseFloat)
        case Err(e) => Err(e)
        case Ok(x) =>
          match CostValues(rows[1..], c, parseFloat)
          case Err(e) => Err(e)
          case Ok(rest) => Ok([x] + rest)
  }

  /** The Cost column converts exactly when every row has a Cost cell that
      normalises, and then each row's value is its cell normalised. */
  lemma {:induction false} CostValuesSpec(rows: seq<seq<Option<string>>>, c: nat, parseFloat: string -> Option<real>)
    requires forall row | row in rows :: c < |row|
    ensures CostValues(rows, c, parseFloat).Ok? <==>
              forall k | 0 <= k < |rows| :: rows[k][c].Some? && NormalizeCost(rows[k][c].value, parseFloat).Ok?
    ensures CostValues(rows, c, parseFloat).Ok? ==>
              forall k | 0 <= k < |rows| :: Ok(CostValues(rows, c, parseFloat).value[k]) == NormalizeCost(rows[k][c].value, parseFloat)
  {
    if rows != [] {
      var rest := rows[1..];
      assert forall row | row in rest :: row in rows;
      CostValuesSpec(rest, c, parseFloat);
      var r := CostValues(rows, c, parseFloat);
      if rows[0][c].None? || NormalizeCost(rows[0][c].value, parseFloat).Err? {
        assert r.Err?;
      } else if CostValues(rest, c, parseFloat).Err? {
        assert r.Err?;
        var j :| 0 <= j < |rest| && !(rest[j][c].Some? && NormalizeCost(rest[j][c].value, parseFloat).Ok?);
        assert rows[j + 1] == rest[j];
      } else {
        var x := NormalizeCost(rows[0][c].value, parseFloat).value;
        assert r == Ok([x] + CostValues(rest, c, parseFloat).value);
        forall k | 1 <= k < |rows|
          ensures rows[k][c].Some? && Ok(r.value[k]) == NormalizeCost(rows[k][c].value, parseFloat)
        {
          assert rows[k] == rest[k - 1];
        }
      }
    }
  }

  /** A statement row after normalize_df: its parsed date, its cost and all
      of its cells. */
  datatype Entry = Entry(date: Option<CalendarDate>, cost: real, cells: seq<Option<string>>)

  /** The normalised DataFrame. */
  datatype Statement = Statement(columns: seq<string>, entries: seq<Entry>)

  predicate Tabular(s: Statement) {
    forall e | e in s.entries :: |e.cells| == |s.columns|
  }

  /** normalize_df with the mapper map_headers returned: rename the columns,
      then convert the Date column and after it the Cost column. */
  function NormalizeFrame(f: Frame, mapper: map<string, Category>,
                          parseDate: string -> Option<CalendarDate>, parseFloat: string -> Option<real>)
    : (r: Result<Statement>)
    requires Rectangular(f)
    ensures r.Ok? ==> Tabular(r.value) && |r.value.entries| == |f.rows|
    ensures r.Ok? ==> r.value.columns == Rename(f.columns, mapper)
    ensures r.Ok? ==> forall k | 0 <= k < |f.rows| :: r.value.entries[k].cells == f.rows[k]
  {
    var columns := Rename(f.columns, mapper);
    match ColumnIndex(columns, "Date")
    case Err(e) => Err(e)
    case Ok(d) =>
      match DateValues(f.rows, d, parseDate)
      case Err(e) => Err(e)
      case Ok(dates) =>
        match ColumnIndex(columns, "Cost")
        case Err(e) => Err(e)
        case Ok(c) =>
          match CostValues(f.rows, c, parseFloat)
          case Err(e) => Err(e)
          case Ok(costs) =>
            Ok(Statement(columns, Entries(f.rows, dates, costs, |columns|)))
  }

  /** The converted columns put back beside the cells of each row. */
  function Entries(rows: seq<seq<Option<string>>>, dates: seq<Option<CalendarDate>>, costs: seq<real>, width: nat)
    : (entries: seq<Entry>)
    requires |dates| == |rows| && |costs| == |rows|
    requires forall row | row in rows :: |row| == width
    ensures |entries| == |rows|
    ensures forall k | 0 <= k < |rows| :: entries[k] == Entry(dates[k], costs[k], rows[k])
    ensures forall e | e in entries :: |e.cells| == width
  {
    seq(|rows|, k requires 0 <= k < |rows| => Entry(dates[k], costs[k], rows[k]))
  }

  /** normalize_date raises on the Date column exactly when some row lacks
      its Date cell. */
  lemma DateValuesFail(rows: seq<seq<Option<string>>>, d: nat, parseDate: string -> Option<CalendarDate>)
    requires forall row | row in rows :: d < |row|
    ensures DateValues(rows, d, parseDate).Err? <==> MissingCell(rows, d)
  {
    DateValuesSpec(rows, d, parseDate);
  }

  /** normalize_cost raises on the Cost column exactly when some row's Cost
      cell is missing or does not normalise. */
  lemma CostValuesFail(rows: seq<seq<Option<string>>>, c: nat, parseFloat: string -> Option<real>)
    requires forall row | row in rows :: c < |row|
    ensures CostValues(rows, c, parseFloat).Err? <==> BadCost(rows, c, parseFloat)
  {
    CostValuesSpec(rows, c, parseFloat);
  }

  /** What normalize_df computes for each row: the Date cell parsed and the
      Cost cell normalised, both looked up under their new labels. */
  lemma NormalizeFrameEntries(f: Frame, mapper: map<string, Category>,
                              parseDate: string -> Option<CalendarDate>, parseFloat: string -> Option<real>)
    requires Rectangular(f)
    requires NormalizeFrame(f, mapper, parseDate, parseFloat).Ok?
    ensures ColumnIndex(Rename(f.columns, mapper), "Date").Ok?
    ensures ColumnIndex(Rename(f.columns, mapper), "Cost").Ok?
    ensures var d := ColumnIndex(Rename(f.columns, mapper), "Date").value;
            var c := ColumnIndex(Rename(f.columns, mapper), "Cost").value;
            var s := NormalizeFrame(f, mapper, parseDate, parseFloat).value;
            forall k | 0 <= k < |f.rows| ::
              && f.rows[k][d].Some? && s.entries[k].date == parseDate(f.rows[k][d].value)
              && f.rows[k][c].Some? && Ok(s.entries[k].cost) == NormalizeCost(f.rows[k][c].value, parseFloat)
  {
    var cols := Rename(f.columns, mapper);
    DateValuesSpec(f.rows, ColumnIndex(cols, "Date").value, parseDate);
    CostValuesSpec(f.rows, ColumnIndex(cols, "Cost").value, parseFloat);
  }

  /** normalize_df fails exactly when the Date column is missing or
      ambiguous, a Date cell is missing, the Cost column is missing or
      ambiguous, or a Cost cell is missing or does not normalise. */
  lemma NormalizeFrameFails(f: Frame, mapper: map<string, Category>,
                            parseDate: string -> Option<CalendarDate>, parseFloat: string -> Option<real>)
    requires Rectangular(f)
    ensures var cols := Rename(f.columns, mapper);
            NormalizeFrame(f, mapper, parseDate, parseFloat).Err? <==>
              || ColumnIndex(cols, "Date").Err?
              || MissingCell(f.rows, ColumnIndex(cols, "Date").value)
              || ColumnIndex(cols, "Cost").Err?
              || BadCost(f.rows, ColumnIndex(cols, "Cost").value, parseFloat)
  {
    var cols := Rename(f.columns, mapper);
    var r := NormalizeFrame(f, mapper, parseDate, parseFloat);
    if ColumnIndex(cols, "Date").Ok? {
      var d := ColumnIndex(cols, "Date").value;
      DateValuesFail(f.rows, d, parseDate);
      if DateValues(f.rows, d, parseDate).Err? {
        assert r == Err(MissingDateCell);
      } else {
        if ColumnIndex(cols, "Cost").Ok? {
          var c := ColumnIndex(cols, "Cost").value;
          CostValuesFail(f.rows, c, parseFloat);
          if CostValues(f.rows, c, parseFloat).Err? {
            assert r.Err?;
          } else {
            assert r.Ok?;
          }
        } else {
          assert r.Err?;
        }
      }
    } else {
      assert r.Err?;
    }
  }


  /** The Date column decides first: a missing or ambiguous Date label, or a
      row without a Date cell, is the error normalize_df reports. */
  lemma NormalizeFrameDateFirst(f: Frame, mapper: map<string, Category>,
                                parseDate: string -> Option<CalendarDate>, parseFloat: string -> Option<real>)
    requires Rectangular(f)
    ensures var cols := Rename(f.columns, mapper);
            ColumnIndex(cols, "Date").Err? ==>
              NormalizeFrame(f, mapper, parseDate, parseFloat) == Err(ColumnIndex(cols, "Date").error)
    ensures var cols := Rename(f.columns, mapper);
            ColumnIndex(cols, "Date").Ok? && MissingCell(f.rows, ColumnIndex(cols, "Date").value) ==>
              NormalizeFrame(f, mapper, parseDate, parseFloat) == Err(MissingDateCell)
  {
    var cols := Rename(f.columns, mapper);
    if ColumnIndex(cols, "Date").Ok? {
      DateValuesFail(f.rows, ColumnIndex(cols, "Date").value, parseDate);
    }
  }

  // ---------------------------------------------------------------------
  // find_matching_rows and validate_statement
  // ---------------------------------------------------------------------

  /** The application-form fields the statement is checked against. */
  datatype Claim = Claim(purchaseDate: string, cost: string, businessName: string)

  /** The default threshold of find_matching_rows. */
  const DefaultThreshold: int := 80

  /** What a row must agree with: the normalised purchase date, the claimed
      cost, the Description column and the name similarity threshold. */
  datatype Target = Target(date: Option<CalendarDate>, cost: real, description: nat,
                           businessName: string, threshold: int)

  /** The name similarity of a row's description; a missing description
      scores 0. */
  function NameScore(cell: Option<string>, name: string, similarity: (string, string) -> int): int {
    match cell
    case None => 0
    case Some(text) => similarity(text, name)
  }

  /** The three conditions of find_matching_rows. A date that did not parse
      equals no cell. */
  predicate Matches(e: Entry, t: Target, similarity: (string, string) -> int)
    requires t.description < |e.cells|
  {
    && t.date.Some? && e.date == t.date
    && e.cost == t.cost
    && NameScore(e.cells[t.description], t.businessName, similarity) >= t.threshold
  }

  /** The boolean-mask selection: the matching rows, in statement order. */
  function Filter(entries: seq<Entry>, t: Target, similarity: (string, string) -> int): (kept: seq<Entry>)
    requires forall e | e in entries :: t.description < |e.cells|
    ensures |kept| <= |entries|
  {
    if entries == [] then []
    else
      var front, last := entries[..|entries| - 1], entries[|entries| - 1];
      assert forall e | e in front :: e in entries;
      Filter(front, t, similarity) + (if Matches(last, t, similarity) then [last] else [])
  }

  /** A row is kept exactly when it is in the statement and matches. */
  lemma {:induction false} FilterMembership(entries: seq<Entry>, t: Target, similarity: (string, string) -> int)
    requires forall e | e in entries :: t.description < |e.cells|
    ensures forall e :: e in Filter(entries, t, similarity) <==> e in entries && Matches(e, t, similarity)
  {
    if entries != [] {
      var front, last := entries[..|entries| - 1], entries[|entries| - 1];
      assert entries == front + [last];
      FilterMembership(front, t, similarity);
    }
  }

  /** Selection keeps statement order: filtering two stretches of rows one
      after the other gives the two selections one after the other. */
  lemma {:induction false} FilterConcat(a: seq<Entry>, b: seq<Entry>, t: Target, similarity: (string, string) -> int)
    requires forall e | e in a + b :: t.description < |e.cells|
    ensures Filter(a + b, t, similarity) == Filter(a, t, similarity) + Filter(b, t, similarity)
    decreases |b|
  {
    if b == [] {
      assert a + b == a;
    } else {
      var front, last := b[..|b| - 1], b[|b| - 1];
      assert (a + b)[..|a + b| - 1] == a + front;
      FilterConcat(a, front, t, similarity);
    }
  }

  /** find_matching_rows: the purchase date is normalised (None when it does
      not parse), the claimed cost must parse as a float, and the frame must
      have a Description column. */
  function FindMatchingRows(s: Statement, claim: Claim, threshold: int,
                            parseDate: string -> Option<CalendarDate>, parseFloat: string -> Option<real>,
                            similarity: (string, string) -> int)
    : (r: Result<seq<Entry>>)
    requires Tabular(s)
    ensures parseFloat(claim.cost).None? ==> r == Err(NotANumber(claim.cost))
    ensures r.Ok? <==> parseFloat(claim.cost).Some? && ColumnIndex(s.columns, "Description").Ok?
    ensures r.Err? && parseFloat(claim.cost).Some? ==> r.error == ColumnIndex(s.columns, "Description").error
    ensures r.Ok? ==> forall e :: e in r.value <==>
              && e in s.entries
              && parseDate(claim.purchaseDate).Some? && e.date == parseDate(claim.purchaseDate)
              && e.cost == parseFloat(claim.cost).value
              && NameScore(e.cells[ColumnIndex(s.columns, "Description").value], claim.businessName, similarity) >= threshold
  {
    var date := parseDate(claim.purchaseDate);
    match parseFloat(claim.cost)
    case None => Err(NotANumber(claim.cost))
    case Some(cost) =>
      match ColumnIndex(s.columns, "Description")
      case Err(e) => Err(e)
      case Ok(d) =>
        var t := Target(date, cost, d, claim.businessName, threshold);
        FilterMembership(s.entries, t, similarity);
        Ok(Filter(s.entries, t, similarity))
  }

  /** The bank-statement pipeline up to the matching rows, with map_headers
      read as the mapping it computes. */
  function StatementMatches(blocks: seq<Block>, claim: Claim,
                            parseDate: string -> Option<CalendarDate>, parseFloat: string -> Option<real>,
                            similarity: (string, string) -> int)
    : (r: Result<seq<Entry>>)
    ensures ParsedRows(blocks) == [] ==> r == Err(EmptyTable)
    ensures r.Ok? ==> parseFloat(claim.cost).Some?
  {
    match TableToFrame(ParsedRows(blocks))
    case Err(e) => Err(e)
    case Ok(f) =>
      match NormalizeFrame(f, Invert(Mapping(f.columns)), parseDate, parseFloat)
      case Err(e) => Err(e)
      case Ok(s) => FindMatchingRows(s, claim, DefaultThreshold, parseDate, parseFloat, similarity)
  }

  /** Every row the pipeline selects carries the claim's purchase date,
      which therefore parsed, and exactly the claimed cost. */
  lemma StatementMatchesSound(blocks: seq<Block>, claim: Claim,
                              parseDate: string -> Option<CalendarDate>, parseFloat: string -> Option<real>,
                              similarity: (string, string) -> int)
    requires StatementMatches(blocks, claim, parseDate, parseFloat, similarity).Ok?
    ensures forall e | e in StatementMatches(blocks, claim, parseDate, parseFloat, similarity).value ::
              && parseDate(claim.purchaseDate).Some? && e.date == parseDate(claim.purchaseDate)
              && e.cost == parseFloat(claim.cost).value
  {
    var f := TableToFrame(ParsedRows(blocks)).value;
    var s := NormalizeFrame(f, Invert(Mapping(f.columns)), parseDate, parseFloat).value;
    assert StatementMatches(blocks, claim, parseDate, parseFloat, similarity)
        == FindMatchingRows(s, claim, DefaultThreshold, parseDate, parseFloat, similarity);
  }

  /** The one criterion validate_statement adds: weight 3, passing exactly
      when some row matches. */
  function StatementCriterion(matches: seq<Entry>): (c: Criterion)
    ensures c.key == "bank_statement" && c.weight == 3.0
    ensures Score(c) == Ok(if matches != [] then 1 else 0)
  {
    Criterion("bank_statement", Bool(matches != []), 3.0)
  }

  /** validate_statement: parse the table, build and normalise the frame,
      look for the claim and record the outcome under "BankStatement". The
      Textract response is given as its block list. */
  method ValidateStatement(blocks: seq<Block>, claim: Claim,
                           parseDate: string -> Option<CalendarDate>, parseFloat: string -> Option<real>,
                           similarity: (string, string) -> int)
    returns (r: Result<ValidationResult>)
    ensures r.Err? <==> StatementMatches(blocks, claim, parseDate, parseFloat, similarity).Err?
    ensures r.Err? ==> r.error == StatementMatches(blocks, claim, parseDate, parseFloat, similarity).error
    ensures r.Ok? ==> fresh(r.value) && r.value.componentName == "BankStatement"
    ensures r.Ok? ==> r.value.criteria == [StatementCriterion(StatementMatches(blocks, claim, parseDate, parseFloat, similarity).value)]
  {
    var tables := ParseTextractTable(blocks);
    var frame := TableToFrame(tables);
    if frame.Err? {
      return Err(frame.error);
    }
    var mapper := MapHeaders(frame.value.columns);
    var statement := NormalizeFrame(frame.value, mapper.value, parseDate, parseFloat);
    if statement.Err? {
      return Err(statement.error);
    }
    var matches := FindMatchingRows(statement.value, claim, DefaultThreshold, parseDate, parseFloat, similarity);
    if matches.Err? {
      return Err(matches.error);
    }
    var result := new ValidationResult("BankStatement");
    result.AddCriteria(StatementCriterion(matches.value));
    return Ok(result);
  }
}
