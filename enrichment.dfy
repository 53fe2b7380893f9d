/** Per-row enrichment: the column set-up and the row loop of `process_file`
    in app.py. */
module Enrichment {
  import opened Wrappers
  import opened Text
  import opened BoldText
  import opened Frames

  /** The label the first column gets. */
  const QueryColumn := "Target Query"
  /** The labels `f'SERP Title {i+1}'` for i = 0, 1, 2. */
  const TitleColumns := ["SERP Title 1", "SERP Title 2", "SERP Title 3"]
  const BoldColumn := "Bold Text"
  /** The four labels the enrichment adds, in the order it adds them. */
  const DerivedColumns := TitleColumns + [BoldColumn]
  /** At most this many titles are recorded per query. */
  const MaxTitles := 3

  /** One entry of the response's `items` list; `None` is a missing key. */
  datatype Item = Item(title: Option<string>, htmlSnippet: Option<string>)

  /** The search service, supplied by the caller: the `items` of the response
      to a query, or `None` when the response has no `items` key. */
  type Search = string -> Option<seq<Item>>

  /** One call of the search service: the row it was made for and the query. */
  datatype Call = Call(row: nat, query: string)

  /** `Processed`, or `AmbiguousQuery` when `row['Target Query']` is a Series
      because two columns carry that label: pandas then raises ValueError on
      the first row. */
  datatype Outcome = Processed | AmbiguousQuery

  function Min(a: int, b: int): int {
    if a <= b then a else b
  }

  /** A missing query, or one made of whitespace only: exactly what
      `pd.isna(query) or query.strip() == ''` tests. */
  function IsBlank(query: Cell): (b: bool)
    ensures b <==> query.None? || Strip(query.value) == ""
  {
    query.None? || AllWhitespace(query.value)
  }

  /** `[item.get('htmlSnippet', '') for item in items]`: one snippet per
      item, in item order, `""` where the key is missing. */
  function Snippets(items: seq<Item>): (r: seq<string>)
    ensures |r| == |items|
    ensures forall k :: 0 <= k < |items| && items[k].htmlSnippet.Some? ==> r[k] == items[k].htmlSnippet.value
    ensures forall k :: 0 <= k < |items| && items[k].htmlSnippet.None? ==> r[k] == ""
  {
    seq(|items|, k requires 0 <= k < |items| => items[k].htmlSnippet.GetOr(""))
  }

  /** The title the `j`-th item contributes: `""` without that item or
      without its `title` key. */
  function TitleAt(items: seq<Item>, j: nat): (r: string)
    ensures j < |items| && items[j].title.Some? ==> r == items[j].title.value
    ensures j >= |items| || items[j].title.None? ==> r == ""
  {
    if j < |items| then items[j].title.GetOr("") else ""
  }

  /** What the four derived cells of a row should hold for its query: all
      `""` for a blank query or a response without `items`; else the first
      three titles (or `""` past the last item) and the bold text of every
      item's snippet. This is the reference the loop is proved against. */
  function DerivedValues(query: Cell, search: Search, parse: Parser): seq<string> {
    if IsBlank(query) then ["", "", "", ""]
    else match search(query.value)
      case None => ["", "", "", ""]
      case Some(items) => [TitleAt(items, 0), TitleAt(items, 1), TitleAt(items, 2), BoldTextOf(Snippets(items), parse)]
  }

  // ---------------------------------------------------------------- specification

  /** The table after the first column is labelled `Target Query`: a later
      column keeps its label unless it equals the first, and the rows are
      untouched. */
  function RenameQuery(t: Table): (r: Table)
    requires |t.columns| > 0
    ensures |r.columns| == |t.columns| && r.columns[0] == QueryColumn
    ensures forall k :: 0 <= k < |t.columns| ==>
      r.columns[k] == if t.columns[k] == t.columns[0] then QueryColumn else t.columns[k]
    ensures r.rows == t.rows
  {
    if t.columns[0] != QueryColumn then Table(Renamed(t.columns, t.columns[0], QueryColumn), t.rows) else t
  }

  /** The table after the set-up: the first column renamed and the four
      derived columns assigned `""`, in order. */
  function Prepared(t: Table): Table
    requires WellFormed(t) && |t.columns| > 0
  {
    AssignAll(RenameQuery(t), DerivedColumns, Some(""))
  }

  /** A prepared row after the titles of the first `n` items are written. */
  function WithTitles(columns: seq<string>, row: seq<Cell>, items: seq<Item>, n: nat): (r: seq<Cell>)
    requires |row| == |columns| && n <= |items| && n <= MaxTitles && Ready(columns)
    ensures |r| == |row|
  {
    if n == 0 then row
    else SetNamed(columns, WithTitles(columns, row, items, n - 1), TitleColumns[n - 1], Some(items[n - 1].title.GetOr("")))
  }

  /** Columns that hold the query first, the three title labels and the
      bold-text label. */
  predicate Ready(columns: seq<string>) {
    |columns| > 0 && columns[0] == QueryColumn &&
    (forall j :: 0 <= j < MaxTitles ==> TitleColumns[j] in columns) && BoldColumn in columns
  }

  /** What one iteration of the loop does to a prepared row. */
  function EnrichedRow(columns: seq<string>, row: seq<Cell>, search: Search, parse: Parser): (r: seq<Cell>)
    requires |row| == |columns| && Ready(columns)
    ensures |r| == |row|
  {
    if IsBlank(row[0]) then row
    else match search(row[0].value)
      case None => row
      case Some(items) =>
        var titled := WithTitles(columns, row, items, Min(MaxTitles, |items|));
        SetNamed(columns, titled, BoldColumn, Some(BoldTextOf(Snippets(items), parse)))
  }

  /** The prepared rows after the loop has visited each of them. */
  function EnrichedRows(columns: seq<string>, rows: seq<seq<Cell>>, search: Search, parse: Parser): (r: seq<seq<Cell>>)
    requires Ready(columns) && forall i :: 0 <= i < |rows| ==> |rows[i]| == |columns|
    ensures |r| == |rows|
    ensures forall i :: 0 <= i < |r| ==> |r[i]| == |columns|
  {
    if rows == [] then []
    else
      var n := |rows| - 1;
      EnrichedRows(columns, rows[..n], search, parse) + [EnrichedRow(columns, rows[n], search, parse)]
  }

  /** The table `process_file` returns: one row per input row, each with a
      cell per column, and `Target Query` and the four derived labels among
      its columns. */
  function Process(t: Table, search: Search, parse: Parser): (r: Table)
    requires WellFormed(t) && |t.columns| > 0
    ensures WellFormed(r) && |r.rows| == |t.rows| && Ready(r.columns)
  {
    var p := Prepared(t);
    PreparedQueries(t);
    Table(p.columns, EnrichedRows(p.columns, p.rows, search, parse))
  }

  /** The query cells, one per row. */
  function Queries(t: Table): (r: seq<Cell>)
    requires WellFormed(t) && |t.columns| > 0
  {
    seq(|t.rows|, i requires 0 <= i < |t.rows| => t.rows[i][0])
  }

  /** The calls the loop makes, row by row, for these query cells. */
  function SearchLog(queries: seq<Cell>): (r: seq<Call>)
  {
    if queries == [] then []
    else
      var n := |queries| - 1;
      SearchLog(queries[..n]) + (if IsBlank(queries[n]) then [] else [Call(n, queries[n].value)])
  }

  // ---------------------------------------------------------------- the loop

  /** `process_file` on a frame that `read_csv` produced (at least one column,
      distinct labels). */
  method ProcessFile(frame: Frame, search: Search, parse: Parser) returns (outcome: Outcome, ghost log: seq<Call>)
    requires frame.Valid() && |frame.columns| > 0 && Distinct(frame.columns)
    modifies frame, frame.rows
    ensures frame.Valid()
    ensures outcome == AmbiguousQuery <==> frame.rows.Length > 0 && QueryColumn in old(frame.columns)[1..]
    ensures outcome == AmbiguousQuery ==> log == [] && frame.Value() == Prepared(old(frame.Value()))
    ensures outcome == Processed ==>
      frame.Value() == Process(old(frame.Value()), search, parse) && log == SearchLog(Queries(old(frame.Value())))
  {
    ghost var input := frame.Value();
    Prepare(frame);
    PreparedQueries(input);
    PreparedAmbiguous(input);
    ghost var prepared := frame.Value();
    assert Queries(prepared) == Queries(input);
    outcome, log := EnrichRows(frame, search, parse);
  }

  /** The row loop of `process_file` on a frame after the set-up. */
  method EnrichRows(frame: Frame, search: Search, parse: Parser) returns (outcome: Outcome, ghost log: seq<Call>)
    requires frame.Valid() && Ready(frame.columns)
    modifies frame.rows
    ensures frame.Valid()
    ensures outcome == AmbiguousQuery <==> frame.rows.Length > 0 && QueryColumn in frame.columns[1..]
    ensures outcome == AmbiguousQuery ==> log == [] && frame.rows[..] == old(frame.rows[..])
    ensures outcome == Processed ==>
      frame.rows[..] == EnrichedRows(frame.columns, old(frame.rows[..]), search, parse) &&
      log == SearchLog(Queries(Table(frame.columns, old(frame.rows[..]))))
  {
    ghost var rows := frame.rows[..];
    ghost var queries := Queries(Table(frame.columns, rows));
    outcome, log := Processed, [];
    for index := 0 to frame.rows.Length
      invariant frame.Valid()
      invariant index > 0 ==> !(QueryColumn in frame.columns[1..])
      invariant frame.rows[..] == EnrichedRows(frame.columns, rows[..index], search, parse) + rows[index..]
      invariant log == SearchLog(queries[..index])
    {
      var rowOutcome;
      rowOutcome, log := EnrichStep(frame, index, search, parse, rows, log);
      if rowOutcome == AmbiguousQuery {
        outcome, log := AmbiguousQuery, [];
        return;
      }
    }
    assert rows[..frame.rows.Length] == rows;
    assert queries[..frame.rows.Length] == queries;
  }

  /** One turn of the row loop, stated on the loop's invariant: the rows before
      `index` are done, the rest are as `rows` has them. */
  method EnrichStep(frame: Frame, index: nat, search: Search, parse: Parser, ghost rows: seq<seq<Cell>>, ghost log: seq<Call>)
    returns (outcome: Outcome, ghost log': seq<Call>)
    requires frame.Valid() && Ready(frame.columns) && index < frame.rows.Length == |rows|
    requires forall i :: 0 <= i < |rows| ==> |rows[i]| == |frame.columns|
    requires frame.rows[..] == EnrichedRows(frame.columns, rows[..index], search, parse) + rows[index..]
    requires log == SearchLog(Queries(Table(frame.columns, rows))[..index])
    modifies frame.rows
    ensures frame.Valid()
    ensures outcome == AmbiguousQuery <==> QueryColumn in frame.columns[1..]
    ensures outcome == AmbiguousQuery ==> frame.rows[..] == old(frame.rows[..])
    ensures outcome == Processed ==>
      frame.rows[..] == EnrichedRows(frame.columns, rows[..index + 1], search, parse) + rows[index + 1..] &&
      log' == SearchLog(Queries(Table(frame.columns, rows))[..index + 1])
  {
    LoopStep(frame.columns, rows, index, search, parse);
    ghost var calls;
    outcome, calls := EnrichAt(frame, index, search, parse);
    SearchLogStep(Queries(Table(frame.columns, rows)), index);
    log' := log + calls;
  }

  /** The set-up of `process_file`: the first column is labelled
      `Target Query` unless it already is, and the four derived columns are
      assigned `""`. */
  method Prepare(frame: Frame)
    requires frame.Valid() && |frame.columns| > 0
    modifies frame, frame.rows
    ensures frame.Valid() && frame.Value() == Prepared(old(frame.Value()))
  {
    if frame.columns[0] != QueryColumn {
      frame.Rename(frame.columns[0], QueryColumn);
    }
    frame.AssignColumn(TitleColumns[0], Some(""));
    frame.AssignColumn(TitleColumns[1], Some(""));
    frame.AssignColumn(TitleColumns[2], Some(""));
    frame.AssignColumn(BoldColumn, Some(""));
    AssignFour(RenameQuery(old(frame.Value())), Some(""));
  }

  /** One iteration of the row loop: read the query, skip a blank one, else
      search once and write the titles and the bold text. `calls` is the call
      made, if any. */
  method EnrichAt(frame: Frame, index: nat, search: Search, parse: Parser) returns (outcome: Outcome, ghost calls: seq<Call>)
    requires frame.Valid() && Ready(frame.columns) && index < frame.rows.Length
    modifies frame.rows
    ensures frame.Valid()
    ensures outcome == AmbiguousQuery <==> QueryColumn in frame.columns[1..]
    ensures outcome == AmbiguousQuery ==> frame.rows[..] == old(frame.rows[..])
    ensures outcome == Processed ==>
      frame.rows[..] == old(frame.rows[..])[index := EnrichedRow(frame.columns, old(frame.rows[index]), search, parse)]
    ensures outcome == Processed ==>
      var query := old(frame.rows[index])[0];
      calls == if IsBlank(query) then [] else [Call(index, query.value)]
  {
    var cells := frame.LookupAt(index, QueryColumn);
    if |cells| != 1 {
      return AmbiguousQuery, [];
    }
    var query := cells[0];
    if query.Some? { StripSpec(query.value); }
    if query.None? || Strip(query.value) == "" {
      return Processed, [];
    }
    var results := search(query.value);
    calls := [Call(index, query.value)];
    outcome := Processed;
    if results.Some? {
      WriteResults(frame, index, results.value, parse);
    }
  }

  /** The writes for a response with `items`: the first titles, then the
      bold text of every snippet. */
  method WriteResults(frame: Frame, index: nat, items: seq<Item>, parse: Parser)
    requires frame.Valid() && Ready(frame.columns) && index < frame.rows.Length
    modifies frame.rows
    ensures frame.Valid()
    ensures
      var titled := WithTitles(frame.columns, old(frame.rows[index]), items, Min(MaxTitles, |items|));
      frame.rows[..] == old(frame.rows[..])[index := SetNamed(frame.columns, titled, BoldColumn, Some(BoldTextOf(Snippets(items), parse)))]
  {
    DerivedLabels();
    ghost var row := frame.rows[index];
    ghost var others := frame.rows[..];
    for i := 0 to Min(MaxTitles, |items|)
      invariant frame.Valid()
      invariant frame.rows[..] == others[index := WithTitles(frame.columns, row, items, i)]
    {
      frame.SetAt(index, TitleColumns[i], Some(items[i].title.GetOr("")));
    }
    var htmlSnippets := Snippets(items);
    var boldText := ExtractBoldText(htmlSnippets, parse);
    frame.SetAt(index, BoldColumn, Some(boldText));
  }

  /** Visiting row `index` extends the visited prefix by that row. */
  lemma LoopStep(columns: seq<string>, rows: seq<seq<Cell>>, index: nat, search: Search, parse: Parser)
    requires Ready(columns) && forall i :: 0 <= i < |rows| ==> |rows[i]| == |columns|
    requires index < |rows|
    ensures
      var done := EnrichedRows(columns, rows[..index], search, parse);
      (done + rows[index..])[index] == rows[index] &&
      (done + rows[index..])[index := EnrichedRow(columns, rows[index], search, parse)]
        == EnrichedRows(columns, rows[..index + 1], search, parse) + rows[index + 1..]
  {
    var done := EnrichedRows(columns, rows[..index], search, parse);
    var row := EnrichedRow(columns, rows[index], search, parse);
    assert rows[..index + 1][..index] == rows[..index];
    assert EnrichedRows(columns, rows[..index + 1], search, parse) == done + [row];
    UpdateFirstOfRest(done, rows[index..], row);
    assert rows[index..][1..] == rows[index + 1..];
  }

  /** Replacing the first element after a prefix. */
  lemma UpdateFirstOfRest<T>(done: seq<T>, rest: seq<T>, x: T)
    requires rest != []
    ensures (done + rest)[|done|] == rest[0]
    ensures (done + rest)[|done| := x] == done + [x] + rest[1..]
  {
  }

  lemma SearchLogStep(queries: seq<Cell>, index: nat)
    requires index < |queries|
    ensures SearchLog(queries[..index + 1]) ==
      SearchLog(queries[..index]) + if IsBlank(queries[index]) then [] else [Call(index, queries[index].value)]
  {
    assert queries[..index + 1][..index] == queries[..index];
  }

  // ---------------------------------------------------------------- set-up facts

  /** `DerivedColumns`, written out: four distinct labels, none of them `Target Query`. */
  lemma DerivedLabels()
    ensures DerivedColumns == [TitleColumns[0], TitleColumns[1], TitleColumns[2], BoldColumn]
    ensures Distinct(DerivedColumns) && QueryColumn !in DerivedColumns
    ensures forall j :: 0 <= j < MaxTitles ==> TitleColumns[j] == DerivedColumns[j]
  {
  }

  /** The four assignments `Prepare` makes are those of `Prepared`. */
  lemma AssignFour(t: Table, v: Cell)
    requires WellFormed(t)
    ensures AssignAll(t, DerivedColumns, v) ==
      Assign(Assign(Assign(Assign(t, TitleColumns[0], v), TitleColumns[1], v), TitleColumns[2], v), BoldColumn, v)
  {
    var d1 := [TitleColumns[1], TitleColumns[2], BoldColumn];
    var d2 := [TitleColumns[2], BoldColumn];
    var d3 := [BoldColumn];
    assert DerivedColumns[1..] == d1 && d1[1..] == d2 && d2[1..] == d3 && d3[1..] == [];
    var t1 := Assign(t, TitleColumns[0], v);
    var t2 := Assign(t1, TitleColumns[1], v);
    var t3 := Assign(t2, TitleColumns[2], v);
    assert AssignAll(t3, d3, v) == Assign(t3, BoldColumn, v);
    assert AssignAll(t2, d2, v) == AssignAll(t3, d3, v);
    assert AssignAll(t1, d1, v) == AssignAll(t2, d2, v);
  }

  /** With distinct labels, renaming the first column changes no other label. */
  lemma RenameQueryColumns(t: Table)
    requires |t.columns| > 0 && Distinct(t.columns)
    ensures RenameQuery(t).columns == [QueryColumn] + t.columns[1..]
  {
  }

  lemma PreparedReady(t: Table)
    requires WellFormed(t) && |t.columns| > 0
    ensures Ready(Prepared(t).columns)
  {
    DerivedLabels();
    AssignAllColumns(RenameQuery(t), DerivedColumns, Some(""));
  }

  /** The labels after the set-up: `Target Query`, the other labels of the
      input in their order, then the derived labels the input lacked, in the
      order `Title 1`, `Title 2`, `Title 3`, `Bold Text`. */
  lemma PreparedColumns(t: Table)
    requires WellFormed(t) && |t.columns| > 0 && Distinct(t.columns)
    ensures Prepared(t).columns == [QueryColumn] + t.columns[1..] + MissingLabels(DerivedColumns, t.columns[1..])
  {
    DerivedLabels();
    RenameQueryColumns(t);
    AssignAllColumns(RenameQuery(t), DerivedColumns, Some(""));
    MissingLabelsSame(DerivedColumns, [QueryColumn] + t.columns[1..], t.columns[1..]);
  }

  /** After the set-up, `Target Query` labels a second column exactly when
      it labelled one of the other columns before. */
  lemma PreparedAmbiguous(t: Table)
    requires WellFormed(t) && |t.columns| > 0 && Distinct(t.columns)
    ensures Ready(Prepared(t).columns)
    ensures QueryColumn in Prepared(t).columns[1..] <==> QueryColumn in t.columns[1..]
  {
    var m := MissingLabels(DerivedColumns, t.columns[1..]);
    PreparedReady(t);
    PreparedColumns(t);
    MissingLabelsIn(DerivedColumns, t.columns[1..]);
    DerivedLabels();
    InTail(QueryColumn, t.columns[1..], m);
  }

  /** A label that is not among the appended ones is in the tail exactly when
      it is among the original non-first labels. */
  lemma InTail(x: string, rest: seq<string>, m: seq<string>)
    requires x !in m
    ensures x in ([x] + rest + m)[1..] <==> x in rest
  {
    assert ([x] + rest + m)[1..] == rest + m;
  }

  /** The set-up keeps every input column in place: it labels the first one
      `Target Query`, keeps the other labels and leaves the cells of every
      column that is the first or not a derived one untouched. */
  lemma PreparedCell(t: Table, i: nat, k: nat)
    requires WellFormed(t) && |t.columns| > 0 && i < |t.rows| && k < |t.columns|
    requires k == 0 || t.columns[k] !in DerivedColumns
    ensures k < |Prepared(t).columns| && |Prepared(t).rows| == |t.rows|
    ensures Prepared(t).columns[k] == (if t.columns[k] == t.columns[0] then QueryColumn else t.columns[k])
    ensures Prepared(t).columns[k] !in DerivedColumns
    ensures Prepared(t).rows[i][k] == t.rows[i][k]
  {
    DerivedLabels();
    AssignAllKeeps(RenameQuery(t), DerivedColumns, Some(""), i, k);
  }

  lemma PreparedQueries(t: Table)
    requires WellFormed(t) && |t.columns| > 0
    ensures WellFormed(Prepared(t)) && Ready(Prepared(t).columns) && |Prepared(t).rows| == |t.rows|
    ensures forall i :: 0 <= i < |t.rows| ==> Prepared(t).rows[i][0] == t.rows[i][0]
  {
    PreparedReady(t);
    forall i | 0 <= i < |t.rows| ensures Prepared(t).rows[i][0] == t.rows[i][0] {
      PreparedCell(t, i, 0);
    }
  }

  /** After the set-up every row holds `""` in the four derived columns. */
  lemma PreparedDerived(t: Table, i: nat)
    requires WellFormed(t) && |t.columns| > 0 && i < |t.rows|
    ensures Ready(Prepared(t).columns)
    ensures forall j :: 0 <= j < |DerivedColumns| ==>
      Get(Prepared(t).columns, Prepared(t).rows[i], DerivedColumns[j]) == Some("")
  {
    PreparedReady(t);
    DerivedLabels();
    AssignAllGet(RenameQuery(t), DerivedColumns, Some(""));
    assert forall j :: 0 <= j < |DerivedColumns| ==> DerivedColumns[j] in DerivedColumns;
  }

  // ---------------------------------------------------------------- row facts

  /** The loop treats each row on its own: row `i` of the result is row `i`
      enriched. */
  lemma {:induction false} EnrichedRowsAt(columns: seq<string>, rows: seq<seq<Cell>>, search: Search, parse: Parser, i: nat)
    requires Ready(columns) && forall i :: 0 <= i < |rows| ==> |rows[i]| == |columns|
    requires i < |rows|
    ensures EnrichedRows(columns, rows, search, parse)[i] == EnrichedRow(columns, rows[i], search, parse)
  {
    var n := |rows| - 1;
    var init := EnrichedRows(columns, rows[..n], search, parse);
    assert EnrichedRows(columns, rows, search, parse) == init + [EnrichedRow(columns, rows[n], search, parse)];
    if i < n {
      EnrichedRowsAt(columns, rows[..n], search, parse, i);
      assert rows[..n][i] == rows[i];
    }
  }

  /** Writing the first `n` titles sets `SERP Title j+1` to the `j`-th title
      for `j < n` and changes nothing else. */
  lemma WithTitlesSpec(columns: seq<string>, row: seq<Cell>, items: seq<Item>, n: nat)
    requires |row| == |columns| && n <= |items| && n <= MaxTitles && Ready(columns)
    ensures forall j :: 0 <= j < MaxTitles ==>
      Get(columns, WithTitles(columns, row, items, n), TitleColumns[j]) ==
        if j < n then Some(items[j].title.GetOr("")) else Get(columns, row, TitleColumns[j])
    ensures Get(columns, WithTitles(columns, row, items, n), BoldColumn) == Get(columns, row, BoldColumn)
    ensures forall k :: 0 <= k < |columns| && columns[k] !in DerivedColumns ==> WithTitles(columns, row, items, n)[k] == row[k]
  {
    DerivedLabels();
    forall j | 0 <= j < MaxTitles
      ensures Get(columns, WithTitles(columns, row, items, n), TitleColumns[j]) ==
        if j < n then Some(items[j].title.GetOr("")) else Get(columns, row, TitleColumns[j])
    {
      WithTitlesGet(columns, row, items, n, j);
    }
    var b := IndexOf(columns, BoldColumn).value;
    WithTitlesKeeps(columns, row, items, n, b);
    forall k | 0 <= k < |columns| && columns[k] !in DerivedColumns
      ensures WithTitles(columns, row, items, n)[k] == row[k]
    {
      WithTitlesKeeps(columns, row, items, n, k);
    }
  }

  /** The cell of one title label after the first `n` titles are written. */
  lemma {:induction false} WithTitlesGet(columns: seq<string>, row: seq<Cell>, items: seq<Item>, n: nat, j: nat)
    requires |row| == |columns| && n <= |items| && n <= MaxTitles && Ready(columns) && j < MaxTitles
    ensures Get(columns, WithTitles(columns, row, items, n), TitleColumns[j]) ==
      if j < n then Some(items[j].title.GetOr("")) else Get(columns, row, TitleColumns[j])
  {
    if n > 0 {
      DerivedLabels();
      WithTitlesGet(columns, row, items, n - 1, j);
    }
  }

  /** A cell under a label other than the title labels is not written. */
  lemma {:induction false} WithTitlesKeeps(columns: seq<string>, row: seq<Cell>, items: seq<Item>, n: nat, k: nat)
    requires |row| == |columns| && n <= |items| && n <= MaxTitles && Ready(columns)
    requires k < |columns| && columns[k] !in TitleColumns
    ensures WithTitles(columns, row, items, n)[k] == row[k]
  {
    if n > 0 {
      WithTitlesKeeps(columns, row, items, n - 1, k);
      assert TitleColumns[n - 1] in TitleColumns;
    }
  }

  /** A prepared row (derived cells `""`) after one iteration holds the
      reference values in its derived cells. */
  lemma EnrichedRowSpec(columns: seq<string>, row: seq<Cell>, search: Search, parse: Parser)
    requires |row| == |columns| && Ready(columns)
    requires forall j :: 0 <= j < |DerivedColumns| ==> Get(columns, row, DerivedColumns[j]) == Some("")
    ensures forall j :: 0 <= j < |DerivedColumns| ==>
      Get(columns, EnrichedRow(columns, row, search, parse), DerivedColumns[j]) == Some(DerivedValues(row[0], search, parse)[j])
  {
    DerivedLabels();
    if !IsBlank(row[0]) && search(row[0].value).Some? {
      var items := search(row[0].value).value;
      var titled := WithTitles(columns, row, items, Min(MaxTitles, |items|));
      WithTitlesSpec(columns, row, items, Min(MaxTitles, |items|));
    }
  }

  /** One iteration changes no cell outside the derived columns. */
  lemma EnrichedRowKeeps(columns: seq<string>, row: seq<Cell>, search: Search, parse: Parser, k: nat)
    requires |row| == |columns| && Ready(columns) && k < |columns| && columns[k] !in DerivedColumns
    ensures EnrichedRow(columns, row, search, parse)[k] == row[k]
  {
    DerivedLabels();
    if !IsBlank(row[0]) && search(row[0].value).Some? {
      var items := search(row[0].value).value;
      var titled := WithTitles(columns, row, items, Min(MaxTitles, |items|));
      WithTitlesSpec(columns, row, items, Min(MaxTitles, |items|));
    }
  }

  // ---------------------------------------------------------------- the promises of process_file

  /** The result has the rows of the input, in number and order; its labels
      are `Target Query`, the other input labels, then the derived labels the
      input lacked. */
  lemma ProcessShape(t: Table, search: Search, parse: Parser)
    requires WellFormed(t) && |t.columns| > 0 && Distinct(t.columns)
    ensures |Process(t, search, parse).rows| == |t.rows|
    ensures Process(t, search, parse).columns ==
      [QueryColumn] + t.columns[1..] + MissingLabels(DerivedColumns, t.columns[1..])
  {
    PreparedQueries(t);
    PreparedColumns(t);
  }

  /** Row `i` of the result holds the reference values for its query in the
      four derived columns. */
  lemma ProcessDerived(t: Table, search: Search, parse: Parser, i: nat)
    requires WellFormed(t) && |t.columns| > 0 && i < |t.rows|
    ensures Ready(Process(t, search, parse).columns) && |Process(t, search, parse).rows| == |t.rows|
    ensures |Process(t, search, parse).rows[i]| == |Process(t, search, parse).columns|
    ensures forall j :: 0 <= j < |DerivedColumns| ==>
      Get(Process(t, search, parse).columns, Process(t, search, parse).rows[i], DerivedColumns[j]) ==
        Some(DerivedValues(t.rows[i][0], search, parse)[j])
  {
    var p := Prepared(t);
    PreparedReady(t);
    PreparedQueries(t);
    PreparedDerived(t, i);
    EnrichedRowsAt(p.columns, p.rows, search, parse, i);
    EnrichedRowSpec(p.columns, p.rows[i], search, parse);
  }

  /** Every input cell outside the derived columns keeps its place and its
      value; only the first column's label may change, to `Target Query`. */
  lemma ProcessKeepsCell(t: Table, search: Search, parse: Parser, i: nat, k: nat)
    requires WellFormed(t) && |t.columns| > 0 && i < |t.rows| && k < |t.columns|
    requires k == 0 || t.columns[k] !in DerivedColumns
    ensures |Process(t, search, parse).rows| == |t.rows| && k < |Process(t, search, parse).columns|
    ensures |Process(t, search, parse).rows[i]| == |Process(t, search, parse).columns|
    ensures Process(t, search, parse).columns[k] == (if t.columns[k] == t.columns[0] then QueryColumn else t.columns[k])
    ensures Process(t, search, parse).rows[i][k] == t.rows[i][k]
  {
    var p := Prepared(t);
    PreparedReady(t);
    PreparedQueries(t);
    PreparedCell(t, i, k);
    EnrichedRowsAt(p.columns, p.rows, search, parse, i);
    var row := EnrichedRow(p.columns, p.rows[i], search, parse);
    assert Process(t, search, parse).rows[i] == row;
    EnrichedRowKeeps(p.columns, p.rows[i], search, parse, k);
    assert row[k] == p.rows[i][k];
  }

  /** The service is called once for each row with a non-blank query, with
      that query, in row order, and never for a blank one. */
  lemma SearchLogSpec(queries: seq<Cell>)
    ensures forall c :: c in SearchLog(queries) ==>
      c.row < |queries| && !IsBlank(queries[c.row]) && queries[c.row] == Some(c.query)
    ensures forall i :: 0 <= i < |queries| && !IsBlank(queries[i]) ==> Call(i, queries[i].value) in SearchLog(queries)
    ensures forall a, b :: 0 <= a < b < |SearchLog(queries)| ==> SearchLog(queries)[a].row < SearchLog(queries)[b].row
  {
    SearchLogSound(queries);
    SearchLogComplete(queries);
    SearchLogOrdered(queries);
  }

  /** Every call is made for a non-blank row, with that row's query. */
  lemma {:induction false} SearchLogSound(queries: seq<Cell>)
    ensures forall c :: c in SearchLog(queries) ==>
      c.row < |queries| && !IsBlank(queries[c.row]) && queries[c.row] == Some(c.query)
  {
    if queries != [] {
      var n := |queries| - 1;
      SearchLogSound(queries[..n]);
    }
  }

  /** Every non-blank row gets its call. */
  lemma {:induction false} SearchLogComplete(queries: seq<Cell>)
    ensures forall i :: 0 <= i < |queries| && !IsBlank(queries[i]) ==> Call(i, queries[i].value) in SearchLog(queries)
  {
    if queries != [] {
      var n := |queries| - 1;
      SearchLogComplete(queries[..n]);
      forall i | 0 <= i < n && !IsBlank(queries[i])
        ensures Call(i, queries[i].value) in SearchLog(queries)
      {
        assert queries[..n][i] == queries[i];
      }
    }
  }

  /** Calls are made in increasing row order. */
  lemma {:induction false} SearchLogOrdered(queries: seq<Cell>)
    ensures forall a, b :: 0 <= a < b < |SearchLog(queries)| ==> SearchLog(queries)[a].row < SearchLog(queries)[b].row
  {
    if queries != [] {
      var n := |queries| - 1;
      SearchLogOrdered(queries[..n]);
      SearchLogBelow(queries[..n]);
      var prev := SearchLog(queries[..n]);
      forall a, b | 0 <= a < b < |SearchLog(queries)|
        ensures SearchLog(queries)[a].row < SearchLog(queries)[b].row
      {
        if b >= |prev| {
          assert SearchLog(queries)[a] == prev[a];
          assert prev[a] in prev;
        }
      }
    }
  }

  lemma {:induction false} SearchLogBelow(queries: seq<Cell>)
    ensures forall c :: c in SearchLog(queries) ==> c.row < |queries|
  {
    if queries != [] {
      SearchLogBelow(queries[..|queries| - 1]);
    }
  }

  /** Two rows, `"best running shoes"` and `""`: the first gets the titles
      `A` and `B`, an empty third title and the bold text `"fast, light"`; the
      blank one keeps four empty fields (and, by `SearchLogSpec`, no call is
      made for it). */
  lemma EndToEndScenario(search: Search, parse: Parser)
    requires search("best running shoes") ==
      Some([Item(Some("A"), Some("<b>fast</b>")), Item(Some("B"), Some("<strong>light...</strong>"))])
    requires parse("<b>fast</b>") == ["fast"] && parse("<strong>light...</strong>") == ["light..."]
    ensures DerivedValues(Some("best running shoes"), search, parse) == ["A", "B", "", "fast, light"]
    ensures DerivedValues(Some(""), search, parse) == ["", "", "", ""]
    ensures SearchLog([Some("best running shoes"), Some("")]) == [Call(0, "best running shoes")]
  {
    assert !IsBlank(Some("best running shoes")) by {
      assert !IsWhitespace("best running shoes"[0]);
    }
    DerivedTwoItems("best running shoes", "A", "B", "<b>fast</b>", "<strong>light...</strong>", search, parse);
    BoldTextFastLight("<b>fast</b>", "<strong>light...</strong>", parse);
    SearchLogTwo(Some("best running shoes"), Some(""));
  }

  /** A non-blank query answered with two items, both with a title and a
      snippet: their titles, an empty third title and their bold text. */
  lemma DerivedTwoItems(q: string, t0: string, t1: string, s0: string, s1: string, search: Search, parse: Parser)
    requires !IsBlank(Some(q))
    requires search(q) == Some([Item(Some(t0), Some(s0)), Item(Some(t1), Some(s1))])
    ensures DerivedValues(Some(q), search, parse) == [t0, t1, "", BoldTextOf([s0, s1], parse)]
  {
    var items := search(q).value;
    assert Snippets(items) == [s0, s1];
  }

  /** A non-blank row followed by a blank one: one call, for the first. */
  lemma SearchLogTwo(a: Cell, b: Cell)
    requires !IsBlank(a) && IsBlank(b)
    ensures SearchLog([a, b]) == [Call(0, a.value)]
  {
    var queries := [a, b];
    assert queries[..1][..0] == [];
    assert queries[..1] == [a];
    assert SearchLog([a]) == [Call(0, a.value)];
  }
}
