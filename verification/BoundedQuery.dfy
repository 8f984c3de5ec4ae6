/** The bounded result loop of a query: batches are fetched until a row limit or a size limit stops it. */
module BoundedQuery {
  import opened Text
  import opened Markdown

  const MAX_MARKDOWN_BYTES := 262144
  const FETCH_BATCH_SIZE := 100
  const SCANNED_MARKER := "\U{27E8}SCANNED\U{27E9}"
  const TOO_LARGE := "QUERY_RESULT_TOO_LARGE"

  type Row = string

  /** A shaped row: its table line, and the columns in which personal data was found and replaced. */
  datatype Shaped = Shaped(line: string, scanned: set<nat>)

  datatype Mode = Short | Full

  datatype Reason = RowLimit | OutputLimit

  /** What has been kept so far. */
  datatype Page = Page(lines: seq<string>, scanned: set<nat>, bytes: nat, reason: Option<Reason>)

  function Keep(p: Page, s: Shaped): Page {
    Page(p.lines + [s.line], p.scanned + s.scanned, p.bytes + Bytes(s.line) + 1, None)
  }

  /** The result over a whole stream, with no batches in sight. */
  function Emit(rows: seq<Row>, shape: Row -> Shaped, maxRows: nat, mode: Mode, p: Page): Result<Page>
    decreases |rows|
  {
    if rows == [] then Ok(p)
    else if |p.lines| >= maxRows then Ok(p.(reason := Some(RowLimit)))
    else
      var s := shape(rows[0]);
      if p.bytes + Bytes(s.line) + 1 > MAX_MARKDOWN_BYTES then
        if mode == Full then Err(TOO_LARGE)
        else Ok(p.(scanned := p.scanned + s.scanned, reason := Some(OutputLimit)))
      else Emit(rows[1..], shape, maxRows, mode, Keep(p, s))
  }

  /** A driver's cursor; a fetch may return fewer rows than asked for, but none only at the end. */
  class RowStream {
    const rows: seq<Row>
    const batch: nat -> nat
    var position: nat

    predicate Valid()
      reads this
    {
      position <= |rows|
    }

    constructor (all: seq<Row>, sizes: nat -> nat)
      ensures Valid() && rows == all && batch == sizes && position == 0
    {
      rows, batch, position := all, sizes, 0;
    }

    method FetchMany(size: nat) returns (fetched: seq<Row>)
      requires Valid() && size > 0
      modifies this`position
      ensures Valid() && position == old(position) + |fetched|
      ensures fetched == rows[old(position)..position] && |fetched| <= size
      ensures fetched == [] <==> old(position) == |rows|
    {
      var wanted := if batch(position) == 0 then 1 else if batch(position) < size then batch(position) else size;
      var stop := if position + wanted <= |rows| then position + wanted else |rows|;
      fetched := rows[position..stop];
      position := stop;
    }
  }

  /** The header's bytes, and room for a late marker in every column. */
  function Reserved(names: seq<string>, markers: seq<string>): nat
    requires |names| == |markers|
  {
    LineBytes(HeaderLines(Marked(names, markers))) + Bytes(SCANNED_MARKER) * |names|
  }

  function Start(names: seq<string>, markers: seq<string>): Page
    requires |names| == |markers|
  {
    Page([], {}, Reserved(names, markers), None)
  }

  /** The loop: whatever sizes the batches come in, its result is that of the stream alone, and at most
      one row more than the limit is read. */
  method Execute(stream: RowStream, shape: Row -> Shaped, maxRows: nat, mode: Mode,
                 start: Page) returns (r: Result<Page>)
    requires stream.Valid() && stream.position == 0 && start.lines == [] && start.reason == None
    modifies stream`position
    ensures stream.Valid() && stream.position <= maxRows + 1
    ensures r == Emit(stream.rows, shape, maxRows, mode, start)
  {
    hide Emit, Bytes;
    var page := start;
    var stop := false;
    assert stream.rows[0..] == stream.rows;
    while !stop
      invariant stream.Valid() && stream.position <= maxRows + 1
      invariant !stop ==> |page.lines| == stream.position && page.reason == None
                          && Emit(stream.rows, shape, maxRows, mode, start)
                             == Emit(stream.rows[stream.position..], shape, maxRows, mode, page)
      invariant stop ==> Emit(stream.rows, shape, maxRows, mode, start) == Ok(page)
      invariant |page.lines| <= maxRows
      decreases !stop, |stream.rows| - stream.position
    {
      var room := maxRows + 1 - |page.lines|;
      ghost var from := stream.position;
      var batch := stream.FetchMany(if room < FETCH_BATCH_SIZE then room else FETCH_BATCH_SIZE);
      if batch == [] {
        EmitNothing(shape, maxRows, mode, page);
        assert stream.rows[from..] == [];
        stop := true;
      }
      var i := 0;
      while i < |batch| && !stop
        invariant 0 <= i <= |batch|
        invariant stream.Valid() && stream.position == from + |batch| <= maxRows + 1
        invariant batch == stream.rows[from..stream.position]
        invariant !stop ==> |page.lines| == from + i && page.reason == None
                            && Emit(stream.rows, shape, maxRows, mode, start)
                               == Emit(stream.rows[from + i..], shape, maxRows, mode, page)
        invariant stop ==> Emit(stream.rows, shape, maxRows, mode, start) == Ok(page)
        invariant |page.lines| <= maxRows
        decreases !stop, |batch| - i
      {
        var rest := stream.rows[from + i..];
        assert rest[0] == batch[i] && rest[1..] == stream.rows[from + i + 1..];
        EmitOne(rest, shape, maxRows, mode, page);
        if |page.lines| >= maxRows {
          page := page.(reason := Some(RowLimit));
          stop := true;
        } else {
          var shaped := shape(batch[i]);
          var candidate := page.bytes + Bytes(shaped.line) + 1;
          if candidate > MAX_MARKDOWN_BYTES {
            if mode == Full {
              return Err(TOO_LARGE);
            }
            page := page.(scanned := page.scanned + shaped.scanned, reason := Some(OutputLimit));
            stop := true;
          } else {
            page := Page(page.lines + [shaped.line], page.scanned + shaped.scanned, candidate, None);
            i := i + 1;
          }
        }
      }
    }
    return Ok(page);
  }

  lemma EmitNothing(shape: Row -> Shaped, maxRows: nat, mode: Mode, p: Page)
    ensures Emit([], shape, maxRows, mode, p) == Ok(p)
  {
  }

  lemma EmitOne(rows: seq<Row>, shape: Row -> Shaped, maxRows: nat, mode: Mode, p: Page)
    requires rows != []
    ensures var s := shape(rows[0]);
            Emit(rows, shape, maxRows, mode, p)
              == if |p.lines| >= maxRows then Ok(p.(reason := Some(RowLimit)))
                 else if p.bytes + Bytes(s.line) + 1 > MAX_MARKDOWN_BYTES then
                   if mode == Full then Err(TOO_LARGE)
                   else Ok(p.(scanned := p.scanned + s.scanned, reason := Some(OutputLimit)))
                 else Emit(rows[1..], shape, maxRows, mode, Keep(p, s))
  {
  }

  // ----- What is returned ----------------------------------------------------------------

  function ShapedLines(rows: seq<Row>, shape: Row -> Shaped): (r: seq<string>)
    ensures |r| == |rows|
  {
    if rows == [] then [] else ShapedLines(rows[..|rows| - 1], shape) + [shape(rows[|rows| - 1]).line]
  }

  /** The size of the first rows, each with its newline. */
  function Size(rows: seq<Row>, shape: Row -> Shaped): nat {
    LineBytes(ShapedLines(rows, shape))
  }

  lemma {:induction false} ShapedFirst(rows: seq<Row>, shape: Row -> Shaped)
    requires rows != []
    ensures ShapedLines(rows, shape) == [shape(rows[0]).line] + ShapedLines(rows[1..], shape)
  {
    if |rows| == 1 {
      assert rows[..0] == [] && rows[1..] == [];
      assert ShapedLines([], shape) == [];
    } else {
      var n := |rows| - 1;
      ShapedFirst(rows[..n], shape);
      assert rows[..n][1..] == rows[1..][..n - 1];
      assert rows[1..][n - 1] == rows[n];
    }
  }

  lemma OneLine(line: string, lines: seq<string>)
    ensures LineBytes([line] + lines) == Bytes(line) + 1 + LineBytes(lines)
  {
    hide Bytes;
    LineBytesAppend([line], lines);
    assert [line][..0] == [];
    assert LineBytes([line]) == LineBytes([]) + Bytes(line) + 1;
  }

  /** How many rows of the stream are kept, and why no more. */
  predicate IsPrefix(rows: seq<Row>, shape: Row -> Shaped, maxRows: nat, start: Page, n: nat, page: Page) {
    && n <= |rows|
    && page.lines == start.lines + ShapedLines(rows[..n], shape)
    && page.bytes == start.bytes + Size(rows[..n], shape)
    && |page.lines| <= maxRows
    && (n > 0 ==> page.bytes <= MAX_MARKDOWN_BYTES)
    && match page.reason
       case None => n == |rows|
       case Some(RowLimit) => n < |rows| && |page.lines| == maxRows
       case Some(OutputLimit) =>
         n < |rows| && |page.lines| < maxRows && page.bytes + Bytes(shape(rows[n]).line) + 1 > MAX_MARKDOWN_BYTES
  }

  lemma PrefixStep(rows: seq<Row>, shape: Row -> Shaped, maxRows: nat, start: Page, n: nat, page: Page)
    requires rows != [] && IsPrefix(rows[1..], shape, maxRows, Keep(start, shape(rows[0])), n, page)
    requires start.bytes + Bytes(shape(rows[0]).line) + 1 <= MAX_MARKDOWN_BYTES
    ensures IsPrefix(rows, shape, maxRows, start, n + 1, page)
  {
    hide Bytes, ShapedLines, LineBytes;
    var first := shape(rows[0]).line;
    assert rows[..n + 1][1..] == rows[1..][..n] && rows[..n + 1][0] == rows[0];
    ShapedFirst(rows[..n + 1], shape);
    OneLine(first, ShapedLines(rows[1..][..n], shape));
    assert start.lines + [first] + ShapedLines(rows[1..][..n], shape)
        == start.lines + ([first] + ShapedLines(rows[1..][..n], shape));
    assert n < |rows[1..]| ==> rows[1..][n] == rows[n + 1];
    if n == 0 {
      ShapedNothing(rows[1..][..0], shape);
    }
  }

  lemma ShapedNothing(rows: seq<Row>, shape: Row -> Shaped)
    requires rows == []
    ensures ShapedLines(rows, shape) == [] && Size(rows, shape) == 0
  {
  }

  /** The rows returned are the first of the stream, in order: all of them, or as many as the limits
      allow. `row_limit` is reported exactly when the limit was reached and the stream holds another row. */
  lemma {:induction false} EmitIsPrefix(rows: seq<Row>, shape: Row -> Shaped, maxRows: nat, mode: Mode, start: Page)
    returns (n: nat)
    requires |start.lines| <= maxRows && start.reason == None
    requires Emit(rows, shape, maxRows, mode, start).Ok?
    ensures IsPrefix(rows, shape, maxRows, start, n, Emit(rows, shape, maxRows, mode, start).value)
    decreases |rows|
  {
    hide Bytes, IsPrefix;
    if rows != [] && |start.lines| < maxRows && start.bytes + Bytes(shape(rows[0]).line) + 1 <= MAX_MARKDOWN_BYTES {
      var k := EmitIsPrefix(rows[1..], shape, maxRows, mode, Keep(start, shape(rows[0])));
      PrefixStep(rows, shape, maxRows, start, k, Emit(rows, shape, maxRows, mode, start).value);
      n := k + 1;
    } else {
      EmptyPrefix(rows, shape, maxRows, start, Emit(rows, shape, maxRows, mode, start).value);
      n := 0;
    }
  }

  lemma EmptyPrefix(rows: seq<Row>, shape: Row -> Shaped, maxRows: nat, start: Page, page: Page)
    requires |start.lines| <= maxRows && page.lines == start.lines && page.bytes == start.bytes
    requires match page.reason
             case None => rows == []
             case Some(RowLimit) => rows != [] && |page.lines| == maxRows
             case Some(OutputLimit) =>
               rows != [] && |page.lines| < maxRows && page.bytes + Bytes(shape(rows[0]).line) + 1 > MAX_MARKDOWN_BYTES
    ensures IsPrefix(rows, shape, maxRows, start, 0, page)
  {
  }

  /** A full result is refused exactly when a short one would stop for size, and is otherwise the same. */
  lemma {:induction false} FullIsRefused(rows: seq<Row>, shape: Row -> Shaped, maxRows: nat, start: Page)
    requires start.reason == None
    ensures Emit(rows, shape, maxRows, Short, start).Ok?
    ensures Emit(rows, shape, maxRows, Full, start)
         == if Emit(rows, shape, maxRows, Short, start).value.reason == Some(OutputLimit) then Err(TOO_LARGE)
            else Emit(rows, shape, maxRows, Short, start)
    decreases |rows|
  {
    hide Bytes;
    if rows != [] && |start.lines| < maxRows && start.bytes + Bytes(shape(rows[0]).line) + 1 <= MAX_MARKDOWN_BYTES {
      FullIsRefused(rows[1..], shape, maxRows, Keep(start, shape(rows[0])));
    }
  }

  // ----- The size of the answer ----------------------------------------------------------

  /** The answer: the header with its late markers, and the kept lines. */
  function Answer(names: seq<string>, markers: seq<string>, page: Page): string
    requires |names| == |markers|
  {
    JoinLines(HeaderLines(Marked(names, LateMarkers(markers, page.scanned, SCANNED_MARKER))) + page.lines)
  }

  lemma MarkerFacts()
    ensures IsClean(SCANNED_MARKER) && SCANNED_MARKER != "" && Bytes(SCANNED_MARKER) == 13
  {
    MarkerIsClean();
    SevenLetters();
    BytesAppend("\U{27E8}", "SCANNED");
    BytesAppend("\U{27E8}SCANNED", "\U{27E9}");
    assert SCANNED_MARKER == "\U{27E8}" + "SCANNED" + "\U{27E9}";
    OneBracket();
  }

  lemma MarkerIsClean()
    ensures IsClean(SCANNED_MARKER)
  {
  }

  lemma OneBracket()
    ensures Bytes("\U{27E8}") == 3 && Bytes("\U{27E9}") == 3
  {
  }

  lemma SevenLetters()
    ensures Bytes("SCANNED") == 7
  {
    PlainBytes("SCANNED");
  }

  /** Plain characters take a byte each. */
  lemma {:induction false} PlainBytes(s: string)
    requires forall i :: 0 <= i < |s| ==> s[i] < '\U{80}'
    ensures Bytes(s) == |s|
  {
    if s != "" {
      PlainBytes(s[..|s| - 1]);
    }
  }

  /** The answer's size: what was counted, less the room reserved, plus each late marker with its space. */
  lemma AnswerSize(names: seq<string>, markers: seq<string>, page: Page)
    requires |names| == |markers|
    requires page.bytes == Reserved(names, markers) + LineBytes(page.lines)
    ensures Bytes(Answer(names, markers, page)) + 13 * |names|
         == page.bytes + 14 * LateCount(markers, page.scanned)
  {
    hide Bytes, LineBytes, HeaderLines, JoinLines, Marked, LateMarkers, LateCount;
    MarkerFacts();
    var header := HeaderLines(Marked(names, LateMarkers(markers, page.scanned, SCANNED_MARKER)));
    LateHeader(names, markers, page.scanned, SCANNED_MARKER);
    LineBytesAppend(header, page.lines);
    JoinedBytes(header + page.lines);
  }

  /** If the first header fits with its reserve, an answer is never longer than the bound plus one byte
      per column: the reserve forgets the space before a late marker. */
  lemma AnswerIsBounded(rows: seq<Row>, shape: Row -> Shaped, maxRows: nat, mode: Mode, names: seq<string>,
                        markers: seq<string>)
    requires |names| == |markers| && Reserved(names, markers) <= MAX_MARKDOWN_BYTES
    requires Emit(rows, shape, maxRows, mode, Start(names, markers)).Ok?
    ensures var page := Emit(rows, shape, maxRows, mode, Start(names, markers)).value;
            && Bytes(Answer(names, markers, page)) <= MAX_MARKDOWN_BYTES + LateCount(markers, page.scanned)
            && LateCount(markers, page.scanned) <= |names|
  {
    hide Bytes, LineBytes, Answer, Reserved, Emit, ShapedLines, LateCount;
    var page := Emit(rows, shape, maxRows, mode, Start(names, markers)).value;
    var n := EmitIsPrefix(rows, shape, maxRows, mode, Start(names, markers));
    assert page.lines == ShapedLines(rows[..n], shape) by {
      assert [] + ShapedLines(rows[..n], shape) == ShapedLines(rows[..n], shape);
    }
    if n == 0 {
      ShapedNothing(rows[..0], shape);
    }
    AnswerSize(names, markers, page);
    Reserve(LateCount(markers, page.scanned), |names|);
  }

  lemma Reserve(late: nat, columns: nat)
    requires late <= columns
    ensures 14 * late <= 13 * columns + late
  {
  }

  function Filler(n: nat): (r: string)
    ensures |r| == n
  {
    seq(n, _ => 'x')
  }

  lemma FillerBytes(n: nat)
    ensures Bytes(Filler(n)) == n
  {
    hide Bytes;
    PlainBytes(Filler(n));
  }

  function Columns(n: nat): (r: set<nat>)
    ensures forall i :: i in r <==> 0 <= i < n
  {
    if n == 0 then {} else Columns(n - 1) + {n - 1}
  }

  /** The cells of a row in which something was replaced in every column: by `fake`, and in the first one
      after `width` characters that stay. */
  function WideRow(columns: nat, width: nat, fake: string): (r: seq<string>)
    requires columns > 0
    ensures |r| == columns
  {
    if columns == 1 then [Filler(width) + fake] else WideRow(columns - 1, width, fake) + [fake]
  }

  lemma CleanCell(n: nat, fake: string)
    requires IsClean(fake)
    ensures Bytes(EscapeCell(Filler(n) + fake)) == n + Bytes(fake)
  {
    hide EscapeCell, Bytes;
    var cell := Filler(n) + fake;
    assert IsClean(cell);
    EscapeAppend("", cell);
    NothingEscaped();
    assert "" + cell == cell;
    FillerBytes(n);
    BytesAppend(Filler(n), fake);
  }

  lemma NothingEscaped()
    ensures EscapeCell("") == ""
  {
  }

  lemma {:induction false} WideCells(columns: nat, width: nat, fake: string)
    requires columns > 0 && IsClean(fake)
    ensures Bytes(Cells(WideRow(columns, width, fake))) == width + columns * (3 + Bytes(fake)) - 3
  {
    hide EscapeCell, Bytes, Cells, IsClean;
    var values := WideRow(columns, width, fake);
    CellsLast(values);
    if columns == 1 {
      CleanCell(width, fake);
      NoCells();
    } else {
      WideCells(columns - 1, width, fake);
      assert values[..columns - 1] == WideRow(columns - 1, width, fake);
      assert Filler(0) + fake == fake;
      CleanCell(0, fake);
      OneMore(columns - 1, 3 + Bytes(fake));
    }
  }

  lemma NoCells()
    ensures forall values: seq<string> :: values == [] ==> Bytes(Cells(values)) == 0
  {
    NoBytes();
  }

  lemma BarBytes()
    ensures Bytes("| ") == 2 && Bytes(" |") == 2
  {
    PlainBytes("| ");
    PlainBytes(" |");
  }

  lemma WideLine(columns: nat, width: nat, fake: string)
    requires columns > 0 && IsClean(fake)
    ensures Bytes(RowLine(WideRow(columns, width, fake))) == width + columns * (3 + Bytes(fake)) + 1
  {
    hide Cells, WideRow, IsClean, Bytes;
    RowBytes(WideRow(columns, width, fake));
    WideCells(columns, width, fake);
    BarBytes();
  }

  /** A row's line has at least its bars and the spaces beside them. */
  lemma {:induction false} ThinCells(values: seq<string>)
    requires values != []
    ensures Bytes(Cells(values)) >= 3 * |values| - 3
  {
    hide EscapeCell, Bytes, Cells;
    if |values| > 1 {
      CellsLast(values);
      ThinCells(values[..|values| - 1]);
    }
  }

  lemma ThinLine(values: seq<string>)
    requires values != []
    ensures Bytes(RowLine(values)) >= 3 * |values| + 1
  {
    hide Cells, Bytes;
    RowBytes(values);
    ThinCells(values);
    BarBytes();
  }

  // ----- When every answer keeps the bound -----------------------------------------------

  /** The columns that can still get a late marker: those without one. */
  function Unmarked(markers: seq<string>): nat {
    LateCount(markers, Columns(|markers|))
  }

  lemma {:induction false} LateWithin(markers: seq<string>, scanned: set<nat>, all: set<nat>)
    requires forall i :: 0 <= i < |markers| ==> i in all
    ensures LateCount(markers, scanned) <= LateCount(markers, all)
  {
    if markers != [] {
      LateWithin(markers[..|markers| - 1], scanned, all);
    }
  }

  /** Rows shaped from their cells and the columns in which something was replaced. */
  function Shape(cells: Row -> seq<string>, found: Row -> set<nat>): Row -> Shaped {
    (r: Row) => Shaped(RowLine(cells(r)), found(r))
  }

  predicate Fits(names: seq<string>, markers: seq<string>, result: Result<Page>)
    requires |names| == |markers|
  {
    result.Ok? ==> Bytes(Answer(names, markers, result.value)) <= MAX_MARKDOWN_BYTES
  }

  /** Whatever the rows hold and whatever is found in them. */
  ghost predicate EveryAnswerFits(names: seq<string>, markers: seq<string>)
    requires |names| == |markers|
  {
    forall rows: seq<Row>, cells: Row -> seq<string>, found: Row -> set<nat>, maxRows: nat, mode: Mode ::
      (forall r: Row :: |cells(r)| == |names|) ==>
        Fits(names, markers, Emit(rows, Shape(cells, found), maxRows, mode, Start(names, markers)))
  }

  /** A row of empty cells still fits below the header and its reserve. */
  predicate HasRoom(names: seq<string>, markers: seq<string>)
    requires |names| == |markers|
  {
    Reserved(names, markers) + 3 * |names| + 2 <= MAX_MARKDOWN_BYTES
  }

  /** What the caller can check of the header beforehand: the reserve of 13 bytes a column covers 14 bytes
      for each column without a marker; and if no row has room, the header with all late markers fits. */
  predicate ReserveSuffices(names: seq<string>, markers: seq<string>)
    requires |names| == |markers|
  {
    if HasRoom(names, markers) then 14 * Unmarked(markers) <= 13 * |names|
    else Reserved(names, markers) + 14 * Unmarked(markers) <= MAX_MARKDOWN_BYTES + 13 * |names|
  }

  lemma AnswerOf(rows: seq<Row>, shape: Row -> Shaped, maxRows: nat, mode: Mode, names: seq<string>,
                 markers: seq<string>)
    returns (n: nat)
    requires |names| == |markers| && Emit(rows, shape, maxRows, mode, Start(names, markers)).Ok?
    ensures var page := Emit(rows, shape, maxRows, mode, Start(names, markers)).value;
            && Bytes(Answer(names, markers, page)) + 13 * |names|
               == page.bytes + 14 * LateCount(markers, page.scanned)
            && LateCount(markers, page.scanned) <= Unmarked(markers)
            && n <= |rows| && page.bytes == Reserved(names, markers) + Size(rows[..n], shape)
            && (n > 0 ==> page.bytes <= MAX_MARKDOWN_BYTES)
  {
    hide Bytes, LineBytes, Answer, Reserved, Emit, ShapedLines, LateCount, Columns;
    var page := Emit(rows, shape, maxRows, mode, Start(names, markers)).value;
    n := EmitIsPrefix(rows, shape, maxRows, mode, Start(names, markers));
    assert page.lines == ShapedLines(rows[..n], shape) by {
      assert [] + ShapedLines(rows[..n], shape) == ShapedLines(rows[..n], shape);
    }
    AnswerSize(names, markers, page);
    LateWithin(markers, page.scanned, Columns(|markers|));
  }

  lemma {:induction false} SizeAtLeast(rows: seq<Row>, shape: Row -> Shaped, least: nat)
    requires rows != [] && forall r: Row :: Bytes(shape(r).line) >= least
    ensures Size(rows, shape) >= least + 1
  {
    hide Bytes;
    var n := |rows| - 1;
    assert ShapedLines(rows, shape)[..n] == ShapedLines(rows[..n], shape);
  }

  lemma SufficientReserve(rows: seq<Row>, cells: Row -> seq<string>, found: Row -> set<nat>, maxRows: nat, mode: Mode,
                          names: seq<string>, markers: seq<string>)
    requires |names| == |markers| > 0 && ReserveSuffices(names, markers)
    requires forall r: Row :: |cells(r)| == |names|
    ensures Fits(names, markers, Emit(rows, Shape(cells, found), maxRows, mode, Start(names, markers)))
  {
    hide Bytes, Answer, Reserved, Emit, Size, Unmarked, RowLine, LateCount;
    var shape := Shape(cells, found);
    if Emit(rows, shape, maxRows, mode, Start(names, markers)).Ok? {
      var n := AnswerOf(rows, shape, maxRows, mode, names, markers);
      if n == 0 {
        ShapedNothing(rows[..0], shape);
      } else if !HasRoom(names, markers) {
        forall r: Row ensures Bytes(shape(r).line) >= 3 * |names| + 1 {
          ThinLine(cells(r));
        }
        SizeAtLeast(rows[..n], shape, 3 * |names| + 1);
        assert false;
      }
    }
  }

  /** One row that fills the rest, with something replaced in every column. Whatever the replacement is, the
      answer is then as long as it can get: 14 bytes over for each unmarked column, less the reserve. */
  lemma BoundIsReached(names: seq<string>, markers: seq<string>, row: Row, fake: string)
    requires |names| == |markers| > 0 && IsClean(fake)
    requires Reserved(names, markers) + |names| * (3 + Bytes(fake)) + 2 <= MAX_MARKDOWN_BYTES
    ensures var width := MAX_MARKDOWN_BYTES - 2 - Reserved(names, markers) - |names| * (3 + Bytes(fake));
            var shape := Shape(_ => WideRow(|names|, width, fake), _ => Columns(|names|));
            var result := Emit([row], shape, 1, Full, Start(names, markers));
            && result.Ok?
            && Bytes(Answer(names, markers, result.value)) + 13 * |names|
               == MAX_MARKDOWN_BYTES + 14 * Unmarked(markers)
  {
    hide Bytes, Answer, Reserved, LineBytes, WideRow, RowLine, IsClean, LateCount, Columns;
    var width := MAX_MARKDOWN_BYTES - 2 - Reserved(names, markers) - |names| * (3 + Bytes(fake));
    var shape := Shape(_ => WideRow(|names|, width, fake), _ => Columns(|names|));
    var start, s := Start(names, markers), shape(row);
    WideLine(|names|, width, fake);
    assert [row][1..] == [];
    assert Emit([row], shape, 1, Full, start) == Ok(Keep(start, s));
    OneLine(s.line, []);
    assert [s.line] + [] == [s.line] && start.lines + [s.line] == [s.line];
    NoLines();
    AnswerSize(names, markers, Keep(start, s));
    assert start.scanned + Columns(|names|) == Columns(|names|);
  }

  /** When no row has room, short mode still marks the columns of the row that it leaves out. */
  lemma CrowdedHeader(names: seq<string>, markers: seq<string>, row: Row, fake: string)
    requires |names| == |markers| > 0 && !HasRoom(names, markers)
    ensures var shape := Shape(_ => WideRow(|names|, 0, fake), _ => Columns(|names|));
            var result := Emit([row], shape, 1, Short, Start(names, markers));
            && result.Ok?
            && Bytes(Answer(names, markers, result.value)) + 13 * |names|
               == Reserved(names, markers) + 14 * Unmarked(markers)
  {
    hide Bytes, Answer, Reserved, LineBytes, WideRow, RowLine, LateCount, Columns;
    var shape := Shape(_ => WideRow(|names|, 0, fake), _ => Columns(|names|));
    var start := Start(names, markers);
    ThinLine(WideRow(|names|, 0, fake));
    var page := start.(scanned := start.scanned + Columns(|names|), reason := Some(OutputLimit));
    assert Emit([row], shape, 1, Short, start) == Ok(page);
    NoLines();
    AnswerSize(names, markers, page);
    assert start.scanned + Columns(|names|) == Columns(|names|);
  }

  lemma InsufficientReserve(names: seq<string>, markers: seq<string>)
    requires |names| == |markers| > 0 && !ReserveSuffices(names, markers)
    ensures !EveryAnswerFits(names, markers)
  {
    hide Bytes, Answer, Reserved, Emit, WideRow, Columns, Unmarked, Shape;
    var row: Row := "";
    if HasRoom(names, markers) {
      NoBytes();
      assert |names| * (3 + Bytes("")) == 3 * |names|;
      BoundIsReached(names, markers, row, "");
      var width := MAX_MARKDOWN_BYTES - 2 - Reserved(names, markers) - |names| * (3 + Bytes(""));
      var cells, found := (_: Row) => WideRow(|names|, width, ""), (_: Row) => Columns(|names|);
      assert !Fits(names, markers, Emit([row], Shape(cells, found), 1, Full, Start(names, markers)));
    } else {
      CrowdedHeader(names, markers, row, "");
      var cells, found := (_: Row) => WideRow(|names|, 0, ""), (_: Row) => Columns(|names|);
      assert !Fits(names, markers, Emit([row], Shape(cells, found), 1, Short, Start(names, markers)));
    }
  }

  /** Every answer below a header keeps the bound exactly when the header's reserve suffices. */
  lemma EveryAnswerFitsExactly(names: seq<string>, markers: seq<string>)
    requires |names| == |markers| > 0
    ensures EveryAnswerFits(names, markers) <==> ReserveSuffices(names, markers)
  {
    hide Emit, ReserveSuffices, Fits, Shape;
    if ReserveSuffices(names, markers) {
      forall rows: seq<Row>, cells: Row -> seq<string>, found: Row -> set<nat>, maxRows: nat, mode: Mode
        | forall r: Row :: |cells(r)| == |names|
        ensures Fits(names, markers, Emit(rows, Shape(cells, found), maxRows, mode, Start(names, markers)))
      {
        SufficientReserve(rows, cells, found, maxRows, mode, names, markers);
      }
    } else {
      InsufficientReserve(names, markers);
    }
  }

  lemma NoLines()
    ensures LineBytes([]) == 0
  {
  }
}
