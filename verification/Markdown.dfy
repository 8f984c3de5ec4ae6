/** Markdown tables: escaped cells, header lines with markers, and sizes in UTF-8 bytes. */
module Markdown {
  // ----- Sizes ---------------------------------------------------------------------------

  function CharBytes(c: char): nat {
    if c < '\U{80}' then 1 else if c < '\U{800}' then 2 else if c < '\U{10000}' then 3 else 4
  }

  /** Length in UTF-8 (section 3 of RFC 3629). */
  function Bytes(s: string): nat {
    if s == "" then 0 else Bytes(s[..|s| - 1]) + CharBytes(s[|s| - 1])
  }

  lemma {:induction false} BytesAppend(a: string, b: string)
    ensures Bytes(a + b) == Bytes(a) + Bytes(b)
  {
    if b == "" {
      assert a + b == a;
    } else {
      BytesAppend(a, b[..|b| - 1]);
      assert (a + b)[..|a + b| - 1] == a + b[..|b| - 1];
    }
  }

  /** Lines, each with its newline. */
  function LineBytes(lines: seq<string>): nat {
    if lines == [] then 0 else LineBytes(lines[..|lines| - 1]) + Bytes(lines[|lines| - 1]) + 1
  }

  function JoinLines(lines: seq<string>): string {
    if lines == [] then "" else JoinLines(lines[..|lines| - 1]) + lines[|lines| - 1] + "\n"
  }

  lemma {:induction false} JoinedBytes(lines: seq<string>)
    ensures Bytes(JoinLines(lines)) == LineBytes(lines)
  {
    if lines != [] {
      var init, last := JoinLines(lines[..|lines| - 1]), lines[|lines| - 1];
      JoinedBytes(lines[..|lines| - 1]);
      BytesAppend(init, last);
      BytesAppend(init + last, "\n");
      assert "\n"[..0] == "";
      assert Bytes("\n") == 1;
    }
  }

  lemma {:induction false} LineBytesAppend(a: seq<string>, b: seq<string>)
    ensures LineBytes(a + b) == LineBytes(a) + LineBytes(b)
  {
    if b == [] {
      assert a + b == a;
    } else {
      LineBytesAppend(a, b[..|b| - 1]);
      assert (a + b)[..|a + b| - 1] == a + b[..|b| - 1];
    }
  }

  // ----- Cells ---------------------------------------------------------------------------

  predicate IsControl(c: char) {
    c <= '\U{08}' || c == '\U{0B}' || c == '\U{0C}' || '\U{0E}' <= c <= '\U{1F}' || c == '\U{7F}'
  }

  function EscapeChar(c: char): string {
    if c == '\\' then "\\\\"
    else if c == '|' then "\\|"
    else if c == '\r' || c == '\n' then "<br>"
    else if IsControl(c) then "\U{FFFD}"
    else [c]
  }

  /** A cell's text; a carriage return and its line feed break once. */
  function EscapeCell(s: string): string {
    if s == "" then ""
    else if |s| > 1 && s[|s| - 2] == '\r' && s[|s| - 1] == '\n' then EscapeCell(s[..|s| - 2]) + "<br>"
    else EscapeCell(s[..|s| - 1]) + EscapeChar(s[|s| - 1])
  }

  predicate IsClean(s: string) {
    forall i :: 0 <= i < |s| ==> EscapeChar(s[i]) == [s[i]]
  }

  lemma EscapeLast(s: string, c: char)
    requires EscapeChar(c) == [c]
    ensures EscapeCell(s + [c]) == EscapeCell(s) + [c]
  {
  }

  lemma {:induction false} EscapeAppend(s: string, clean: string)
    requires IsClean(clean)
    ensures EscapeCell(s + clean) == EscapeCell(s) + clean
  {
    hide EscapeCell, EscapeChar;
    if clean == "" {
      assert s + clean == s;
    } else {
      var init := clean[..|clean| - 1];
      var c := clean[|clean| - 1];
      EscapeAppend(s, init);
      EscapeLast(s + init, c);
      assert clean == init + [c];
      assert s + init + [c] == s + clean;
    }
  }

  /** The cells of a table line. */
  function Cells(values: seq<string>): string {
    if values == [] then ""
    else if |values| == 1 then EscapeCell(values[0])
    else Cells(values[..|values| - 1]) + " | " + EscapeCell(values[|values| - 1])
  }

  function RowLine(values: seq<string>): string {
    "| " + Cells(values) + " |"
  }

  function Marked(names: seq<string>, markers: seq<string>): (r: seq<string>)
    requires |names| == |markers|
    ensures |r| == |names|
  {
    seq(|names|, i requires 0 <= i < |names| => if markers[i] != "" then names[i] + " " + markers[i] else names[i])
  }

  function Rule(n: nat): (r: seq<string>)
    ensures |r| == n
  {
    seq(n, _ => "---")
  }

  /** The header and the rule below it. */
  function HeaderLines(names: seq<string>): seq<string> {
    [RowLine(names), RowLine(Rule(|names|))]
  }

  // ----- Late markers --------------------------------------------------------------------

  /** A column without a marker gets one when its values were found to hold personal data. */
  function LateMarkers(markers: seq<string>, scanned: set<nat>, marker: string): (r: seq<string>)
    ensures |r| == |markers|
  {
    seq(|markers|, i requires 0 <= i < |markers| => if markers[i] == "" && i in scanned then marker else markers[i])
  }

  function LateCount(markers: seq<string>, scanned: set<nat>): (n: nat)
    ensures n <= |markers|
  {
    if markers == [] then 0
    else LateCount(markers[..|markers| - 1], scanned)
         + (if markers[|markers| - 1] == "" && |markers| - 1 in scanned then 1 else 0)
  }

  lemma LateCell(name: string, marker: string)
    requires IsClean(marker)
    ensures Bytes(EscapeCell(name + " " + marker)) == Bytes(EscapeCell(name)) + 1 + Bytes(marker)
  {
    hide EscapeCell, Bytes;
    SpaceIsClean(marker);
    assert name + " " + marker == name + (" " + marker);
    EscapeAppend(name, " " + marker);
    BytesAppend(EscapeCell(name), " " + marker);
    BytesAppend(" ", marker);
    OneSpace();
  }

  lemma OneSpace()
    ensures Bytes(" ") == 1
  {
  }

  lemma SpaceIsClean(marker: string)
    requires IsClean(marker)
    ensures IsClean(" " + marker)
  {
  }

  lemma CellsLast(values: seq<string>)
    requires values != []
    ensures Bytes(Cells(values)) == Bytes(Cells(values[..|values| - 1])) + (if |values| == 1 then 0 else 3)
                                    + Bytes(EscapeCell(values[|values| - 1]))
  {
    hide EscapeCell, Bytes;
    if |values| == 1 {
      assert Cells(values[..0]) == "";
      NoBytes();
    } else {
      var init, last := Cells(values[..|values| - 1]), EscapeCell(values[|values| - 1]);
      BytesAppend(init + " | ", last);
      BytesAppend(init, " | ");
      ThreeBytes();
    }
  }

  lemma NoBytes()
    ensures Bytes("") == 0
  {
  }

  lemma ThreeBytes()
    ensures Bytes(" | ") == 3
  {
    assert " | "[..2] == " |";
    assert " |"[..1] == " ";
    assert " "[..0] == "";
  }

  lemma MarkedInit(names: seq<string>, markers: seq<string>)
    requires |names| == |markers| && names != []
    ensures var n := |names| - 1;
            && Marked(names, markers)[..n] == Marked(names[..n], markers[..n])
            && Marked(names, markers)[n] == (if markers[n] != "" then names[n] + " " + markers[n] else names[n])
  {
  }

  lemma LateInit(markers: seq<string>, scanned: set<nat>, marker: string)
    requires markers != []
    ensures var n := |markers| - 1;
            && LateMarkers(markers, scanned, marker)[..n] == LateMarkers(markers[..n], scanned, marker)
            && LateMarkers(markers, scanned, marker)[n]
               == (if markers[n] == "" && n in scanned then marker else markers[n])
            && LateCount(markers, scanned)
               == LateCount(markers[..n], scanned) + (if markers[n] == "" && n in scanned then 1 else 0)
  {
  }

  /** Every late marker costs its own bytes and the space before it. */
  lemma {:induction false} LateCells(names: seq<string>, markers: seq<string>, scanned: set<nat>, marker: string)
    requires |names| == |markers| && IsClean(marker) && marker != ""
    ensures Bytes(Cells(Marked(names, LateMarkers(markers, scanned, marker))))
         == Bytes(Cells(Marked(names, markers))) + LateCount(markers, scanned) * (1 + Bytes(marker))
    decreases |names|
  {
    hide Bytes, EscapeCell, Cells, Marked, LateMarkers, LateCount, IsClean;
    if names == [] {
      NoLate(markers, scanned);
    } else {
      var n := |names| - 1;
      LateCells(names[..n], markers[..n], scanned, marker);
      MarkedInit(names, markers);
      MarkedInit(names, LateMarkers(markers, scanned, marker));
      LateInit(markers, scanned, marker);
      CellsLast(Marked(names, markers));
      CellsLast(Marked(names, LateMarkers(markers, scanned, marker)));
      LateCell(names[n], marker);
      OneMore(LateCount(markers[..n], scanned), 1 + Bytes(marker));
    }
  }

  lemma NoLate(markers: seq<string>, scanned: set<nat>)
    requires markers == []
    ensures LateCount(markers, scanned) == 0
  {
  }

  lemma OneMore(n: nat, k: nat)
    ensures (n + 1) * k == n * k + k
  {
  }

  lemma LateHeader(names: seq<string>, markers: seq<string>, scanned: set<nat>, marker: string)
    requires |names| == |markers| && IsClean(marker) && marker != ""
    ensures LineBytes(HeaderLines(Marked(names, LateMarkers(markers, scanned, marker))))
         == LineBytes(HeaderLines(Marked(names, markers))) + LateCount(markers, scanned) * (1 + Bytes(marker))
  {
    hide Bytes, Cells, Marked, LateMarkers, LateCount, Rule;
    LateCells(names, markers, scanned, marker);
    HeaderBytes(Marked(names, markers));
    HeaderBytes(Marked(names, LateMarkers(markers, scanned, marker)));
  }

  lemma RowBytes(values: seq<string>)
    ensures Bytes(RowLine(values)) == Bytes("| ") + Bytes(Cells(values)) + Bytes(" |")
  {
    hide Bytes, Cells;
    BytesAppend("| ", Cells(values));
    BytesAppend("| " + Cells(values), " |");
  }

  lemma TwoLines(a: string, b: string)
    ensures LineBytes([a, b]) == Bytes(a) + 1 + Bytes(b) + 1
  {
    hide Bytes;
    assert [a, b][..1] == [a];
    assert [a][..0] == [];
    assert LineBytes([a]) == LineBytes([]) + Bytes(a) + 1;
  }

  lemma HeaderBytes(names: seq<string>)
    ensures LineBytes(HeaderLines(names))
         == Bytes("| ") + Bytes(Cells(names)) + Bytes(" |") + 1 + Bytes(RowLine(Rule(|names|))) + 1
  {
    hide Bytes, Cells, RowLine, Rule;
    RowBytes(names);
    var lines := HeaderLines(names);
    TwoLines(RowLine(names), RowLine(Rule(|names|)));
  }

  // ----- A row is read back --------------------------------------------------------------

  /** What a reader of a line has: an open backslash or not, the cells that a bar has ended, and the text since. */
  datatype Reading = Reading(escaped: bool, cells: seq<string>, text: string)

  function ReadChar(r: Reading, c: char): Reading {
    if r.escaped then Reading(false, r.cells, r.text + [c])
    else if c == '\\' then Reading(true, r.cells, r.text)
    else if c == '|' then Reading(false, r.cells + [r.text], "")
    else Reading(false, r.cells, r.text + [c])
  }

  function Read(r: Reading, s: string): Reading {
    if s == "" then r else ReadChar(Read(r, s[..|s| - 1]), s[|s| - 1])
  }

  /** What a cell shows: a line break as a mark, and a control character as the replacement character. */
  function Shown(s: string): string {
    if s == "" then ""
    else if |s| > 1 && s[|s| - 2] == '\r' && s[|s| - 1] == '\n' then Shown(s[..|s| - 2]) + "<br>"
    else Shown(s[..|s| - 1]) + ShownChar(s[|s| - 1])
  }

  function ShownChar(c: char): string {
    if c == '\r' || c == '\n' then "<br>" else if IsControl(c) then "\U{FFFD}" else [c]
  }

  function ShownCells(values: seq<string>): (r: seq<string>)
    ensures |r| == |values|
  {
    seq(|values|, i requires 0 <= i < |values| => " " + Shown(values[i]) + " ")
  }

  lemma {:induction false} ReadAppend(r: Reading, a: string, b: string)
    ensures Read(r, a + b) == Read(Read(r, a), b)
  {
    hide ReadChar;
    if b == "" {
      assert a + b == a;
    } else {
      ReadAppend(r, a, b[..|b| - 1]);
      assert (a + b)[..|a + b| - 1] == a + b[..|b| - 1];
    }
  }

  lemma ReadOne(r: Reading, c: char)
    ensures Read(r, [c]) == ReadChar(r, c)
  {
    assert [c][..0] == "";
  }

  lemma ReadTwo(r: Reading, c: char, d: char)
    ensures Read(r, [c, d]) == ReadChar(ReadChar(r, c), d)
  {
    hide ReadChar;
    ReadOne(r, c);
    assert [c, d][..1] == [c];
  }

  lemma ReadBreak(r: Reading)
    requires !r.escaped
    ensures Read(r, "<br>") == Reading(false, r.cells, r.text + "<br>")
  {
    hide Read;
    ReadTwo(r, '<', 'b');
    ReadTwo(Read(r, "<b"), 'r', '>');
    ReadAppend(r, "<b", "r>");
    assert "<b" + "r>" == "<br>";
    assert r.text + ['<'] + ['b'] + ['r'] + ['>'] == r.text + "<br>";
  }

  lemma CharIsRead(r: Reading, c: char)
    requires !r.escaped
    ensures Read(r, EscapeChar(c)) == Reading(false, r.cells, r.text + ShownChar(c))
  {
    hide Read;
    if c == '\\' || c == '|' {
      ReadTwo(r, '\\', c);
    } else if c == '\r' || c == '\n' {
      ReadBreak(r);
    } else if IsControl(c) {
      ReadOne(r, '\U{FFFD}');
    } else {
      ReadOne(r, c);
    }
  }

  /** Reading an escaped cell ends no cell and gives the text that the cell shows. */
  lemma {:induction false} CellIsRead(r: Reading, s: string)
    requires !r.escaped
    ensures Read(r, EscapeCell(s)) == Reading(false, r.cells, r.text + Shown(s))
  {
    hide Read, ReadChar, EscapeChar, ShownChar, IsControl;
    var n := |s|;
    if s == "" {
      assert Read(r, "") == r by {
        ReadNothing(r);
      }
    } else if n > 1 && s[n - 2] == '\r' && s[n - 1] == '\n' {
      CellIsRead(r, s[..n - 2]);
      ReadAppend(r, EscapeCell(s[..n - 2]), "<br>");
      ReadBreak(Read(r, EscapeCell(s[..n - 2])));
    } else {
      CellIsRead(r, s[..n - 1]);
      ReadAppend(r, EscapeCell(s[..n - 1]), EscapeChar(s[n - 1]));
      CharIsRead(Read(r, EscapeCell(s[..n - 1])), s[n - 1]);
    }
  }

  lemma ReadNothing(r: Reading)
    ensures Read(r, "") == r
  {
  }

  lemma ReadBar(r: Reading)
    requires !r.escaped
    ensures Read(r, " | ") == Reading(false, r.cells + [r.text + " "], " ")
  {
    hide Read;
    ReadTwo(r, ' ', '|');
    ReadOne(Read(r, " |"), ' ');
    ReadAppend(r, " |", " ");
    assert " |" + " " == " | ";
  }

  lemma {:induction false} CellsAreRead(r: Reading, values: seq<string>)
    requires !r.escaped && r.text == " " && values != []
    ensures var n := |values| - 1;
            Read(r, Cells(values)) == Reading(false, r.cells + ShownCells(values)[..n], " " + Shown(values[n]))
  {
    hide Read, ReadChar, EscapeCell, Shown;
    var n := |values| - 1;
    CellIsRead(r, values[n]);
    if n > 0 {
      var before := Cells(values[..n]);
      CellsAreRead(r, values[..n]);
      ReadAppend(r, before + " | ", EscapeCell(values[n]));
      ReadAppend(r, before, " | ");
      ReadBar(Read(r, before));
      CellIsRead(Read(r, before + " | "), values[n]);
      assert ShownCells(values)[..n] == ShownCells(values[..n])[..n - 1] + [" " + Shown(values[n - 1]) + " "];
    }
  }

  /** A row read back, split at the bars that no backslash hides, gives exactly its cells, whatever they hold. */
  lemma RowIsRead(values: seq<string>)
    requires values != []
    ensures Read(Reading(false, [], ""), RowLine(values)) == Reading(false, [""] + ShownCells(values), "")
  {
    hide Read, Cells, Shown;
    var r := Reading(false, [], "");
    var n := |values| - 1;
    ReadTwo(r, '|', ' ');
    var start := Read(r, "| ");
    CellsAreRead(start, values);
    ReadAppend(r, "| " + Cells(values), " |");
    ReadAppend(r, "| ", Cells(values));
    ReadTwo(Read(start, Cells(values)), ' ', '|');
    assert ShownCells(values) == ShownCells(values)[..n] + [" " + Shown(values[n]) + " "];
  }
}
