/** Opaque cursors over a list, and the pages that following them visits. */
module Pagination {
  import opened Text
  import opened Json

  // ----- Base 64 -------------------------------------------------------------------------

  function Char64(k: nat): char
    requires k < 64
  {
    if k < 26 then 'A' + k as char
    else if k < 52 then 'a' + (k - 26) as char
    else if k < 62 then '0' + (k - 52) as char
    else if k == 62 then '-' else '_'
  }

  /** A character's value; the standard alphabet's two last characters are taken as well. */
  function Value64(c: char): (r: Option<nat>)
    ensures r.Some? ==> r.value < 64
  {
    if 'A' <= c <= 'Z' then Some((c - 'A') as nat)
    else if 'a' <= c <= 'z' then Some((c - 'a') as nat + 26)
    else if '0' <= c <= '9' then Some((c - '0') as nat + 52)
    else if c == '-' || c == '+' then Some(62)
    else if c == '_' || c == '/' then Some(63)
    else None
  }

  /** Three bytes in four characters, and padding at the end (section 5 of RFC 4648). */
  function Encode64(data: seq<Byte>): string {
    if data == [] then ""
    else if |data| == 1 then [Char64(data[0] / 4), Char64(data[0] % 4 * 16), '=', '=']
    else if |data| == 2 then
      [Char64(data[0] / 4), Char64(data[0] % 4 * 16 + data[1] / 16), Char64(data[1] % 16 * 4), '=']
    else
      [Char64(data[0] / 4), Char64(data[0] % 4 * 16 + data[1] / 16), Char64(data[1] % 16 * 4 + data[2] / 64),
       Char64(data[2] % 64)] + Encode64(data[3..])
  }

  function StripPadding(s: string): string {
    if s != "" && s[|s| - 1] == '=' then StripPadding(s[..|s| - 1]) else s
  }

  function Pads(n: nat): (r: string)
    ensures |r| == n
  {
    seq(n, _ => '=')
  }

  /** As many as make the length a multiple of four. */
  function Padded(s: string): string {
    s + Pads((4 - |s| % 4) % 4)
  }

  /** The lenient decoder: characters outside the alphabet are skipped, and a complete padding ends the
      data. `left` holds the bits left over from the last character. */
  function Decode64(s: string, quad: nat, left: nat, pads: nat): Option<seq<Byte>>
    requires quad < 4
    requires quad == 1 ==> left < 64
    requires quad == 2 ==> left < 16
    requires quad == 3 ==> left < 4
  {
    if s == "" then if quad == 0 then Some([]) else None
    else if s[0] == '=' then
      if quad < 2 then Decode64(s[1..], quad, left, pads)
      else if quad + pads + 1 >= 4 then Some([])
      else Decode64(s[1..], quad, left, pads + 1)
    else match Value64(s[0])
      case None => Decode64(s[1..], quad, left, pads)
      case Some(v) =>
        if quad == 0 then Decode64(s[1..], 1, v, 0)
        else if quad == 1 then Emit(left * 4 + v / 16, Decode64(s[1..], 2, v % 16, 0))
        else if quad == 2 then Emit(left * 16 + v / 4, Decode64(s[1..], 3, v % 4, 0))
        else Emit(left * 64 + v, Decode64(s[1..], 0, 0, 0))
  }

  function Emit(b: Byte, rest: Option<seq<Byte>>): Option<seq<Byte>> {
    match rest
    case None => None
    case Some(data) => Some([b] + data)
  }

  lemma Value64Of(k: nat)
    requires k < 64
    ensures Value64(Char64(k)) == Some(k) && Char64(k) != '='
  {
  }

  lemma Decode64Next(s: string, quad: nat, left: nat, k: nat)
    requires quad < 4 && k < 64
    requires quad == 1 ==> left < 64
    requires quad == 2 ==> left < 16
    requires quad == 3 ==> left < 4
    ensures Decode64([Char64(k)] + s, quad, left, 0)
         == if quad == 0 then Decode64(s, 1, k, 0)
            else if quad == 1 then Emit(left * 4 + k / 16, Decode64(s, 2, k % 16, 0))
            else if quad == 2 then Emit(left * 16 + k / 4, Decode64(s, 3, k % 4, 0))
            else Emit(left * 64 + k, Decode64(s, 0, 0, 0))
  {
    Value64Of(k);
    assert ([Char64(k)] + s)[1..] == s;
  }

  lemma DecodeTwo(a: Byte, low: nat, s: string)
    requires low < 16
    ensures Decode64([Char64(a / 4), Char64(a % 4 * 16 + low)] + s, 0, 0, 0) == Emit(a, Decode64(s, 2, low, 0))
  {
    hide Decode64, Char64;
    var first, second := Char64(a / 4), Char64(a % 4 * 16 + low);
    assert [first, second] + s == [first] + ([second] + s);
    Decode64Next([second] + s, 0, 0, a / 4);
    Decode64Next(s, 1, a / 4, a % 4 * 16 + low);
  }

  lemma RoundTripOne(a: Byte)
    ensures Decode64([Char64(a / 4), Char64(a % 4 * 16)] + "==", 0, 0, 0) == Some([a])
  {
    hide Decode64, Char64;
    DecodeTwo(a, 0, "==");
    TwoPads(0);
    assert [a] + [] == [a];
  }

  lemma RoundTripTwo(a: Byte, b: Byte)
    ensures Decode64([Char64(a / 4), Char64(a % 4 * 16 + b / 16)] + ([Char64(b % 16 * 4)] + "="), 0, 0, 0) ==
              Some([a, b])
  {
    hide Decode64, Char64;
    DecodeTwo(a, b / 16, [Char64(b % 16 * 4)] + "=");
    Decode64Next("=", 2, b / 16, b % 16 * 4);
    OnePad(0);
    assert [b] + [] == [b] && [a] + [b] == [a, b];
  }

  lemma RoundTripThree(a: Byte, b: Byte, c: Byte, rest: string)
    ensures Decode64([Char64(a / 4), Char64(a % 4 * 16 + b / 16)]
                     + ([Char64(b % 16 * 4 + c / 64)] + ([Char64(c % 64)] + rest)), 0, 0, 0)
         == Emit(a, Emit(b, Emit(c, Decode64(rest, 0, 0, 0))))
  {
    hide Decode64, Char64, Emit;
    var third, fourth := Char64(b % 16 * 4 + c / 64), Char64(c % 64);
    DecodeTwo(a, b / 16, [third] + ([fourth] + rest));
    Decode64Next([fourth] + rest, 2, b / 16, b % 16 * 4 + c / 64);
    Decode64Next(rest, 3, c / 64, c % 64);
  }

  lemma {:induction false} Decode64RoundTrip(data: seq<Byte>)
    ensures Decode64(Encode64(data), 0, 0, 0) == Some(data)
  {
    hide Decode64, Char64;
    if data == [] {
      DecodeNothing();
    } else if |data| == 1 {
      var a := data[0];
      RoundTripOne(a);
      assert data == [a];
      assert Encode64(data) == [Char64(a / 4), Char64(a % 4 * 16)] + "==";
    } else if |data| == 2 {
      var a, b := data[0], data[1];
      RoundTripTwo(a, b);
      assert data == [a, b];
      assert Encode64(data) == [Char64(a / 4), Char64(a % 4 * 16 + b / 16)] + ([Char64(b % 16 * 4)] + "=");
    } else {
      var a, b, c := data[0], data[1], data[2];
      RoundTripThree(a, b, c, Encode64(data[3..]));
      Decode64RoundTrip(data[3..]);
      assert Encode64(data) == [Char64(a / 4), Char64(a % 4 * 16 + b / 16)]
                               + ([Char64(b % 16 * 4 + c / 64)] + ([Char64(c % 64)] + Encode64(data[3..])));
      assert data == [a] + ([b] + ([c] + data[3..]));
    }
  }

  lemma DecodeNothing()
    ensures Decode64("", 0, 0, 0) == Some([])
  {
  }

  lemma OnePad(left: nat)
    requires left < 4
    ensures Decode64("=", 3, left, 0) == Some([])
  {
  }

  lemma TwoPads(left: nat)
    requires left < 16
    ensures Decode64("==", 2, left, 0) == Some([])
  {
  }

  predicate NoPad(s: string) {
    s == "" || s[|s| - 1] != '='
  }

  lemma StripPads(s: string, n: nat)
    requires NoPad(s)
    ensures StripPadding(s + Pads(n)) == s
  {
    if n == 0 {
      assert s + Pads(0) == s;
    } else {
      StripPads(s, n - 1);
      assert (s + Pads(n))[..|s| + n - 1] == s + Pads(n - 1);
    }
  }

  lemma PaddedPrepend(quad: string, rest: string)
    requires |quad| == 4
    ensures Padded(quad + rest) == quad + Padded(rest)
  {
    assert |quad + rest| % 4 == |rest| % 4;
    Associate(quad, rest, Pads((4 - |rest| % 4) % 4));
  }

  lemma NoPadPrepend(quad: string, rest: string)
    requires NoPad(rest) && NoPad(quad)
    ensures NoPad(quad + rest)
  {
  }

  lemma ShortPadded(s: string)
    ensures |s| == 0 ==> Padded(s) == s
    ensures |s| == 2 ==> Padded(s) == s + ['=', '=']
    ensures |s| == 3 ==> Padded(s) == s + ['=']
  {
  }

  /** The unpadded form: its length tells how much padding to put back. */
  lemma {:induction false} EncodedIsPadded(data: seq<Byte>) returns (core: string)
    ensures NoPad(core) && Encode64(data) == Padded(core)
  {
    hide Char64, Padded, Value64;
    if data == [] {
      core := "";
    } else if |data| == 1 {
      core := [Char64(data[0] / 4), Char64(data[0] % 4 * 16)];
      Value64Of(data[0] % 4 * 16);
    } else if |data| == 2 {
      core := [Char64(data[0] / 4), Char64(data[0] % 4 * 16 + data[1] / 16), Char64(data[1] % 16 * 4)];
      Value64Of(data[1] % 16 * 4);
    } else {
      var rest := EncodedIsPadded(data[3..]);
      var quad := [Char64(data[0] / 4), Char64(data[0] % 4 * 16 + data[1] / 16),
                   Char64(data[1] % 16 * 4 + data[2] / 64), Char64(data[2] % 64)];
      core := quad + rest;
      Value64Of(data[2] % 64);
      NoPadPrepend(quad, rest);
      PaddedPrepend(quad, rest);
    }
    ShortPadded(core);
  }

  /** Stripping the padding and putting it back is harmless. */
  lemma PaddingRoundTrip(data: seq<Byte>)
    ensures Padded(StripPadding(Encode64(data))) == Encode64(data)
  {
    hide Encode64, StripPadding, Pads;
    var core := EncodedIsPadded(data);
    StripPads(core, (4 - |core| % 4) % 4);
  }

  // ----- Cursors -------------------------------------------------------------------------

  const INVALID_CURSOR := "INVALID_CURSOR"
  const INVALID_PAGE_LIMIT := "INVALID_PAGE_LIMIT"
  const VERSION := "v1"

  predicate IsAscii(s: string) {
    forall i :: 0 <= i < |s| ==> s[i] < '\U{80}'
  }

  function AsciiBytes(s: string): (r: seq<Byte>)
    requires IsAscii(s)
    ensures |r| == |s|
  {
    seq(|s|, i requires 0 <= i < |s| => s[i] as nat)
  }

  /** The text of plain bytes. */
  function TextOf(data: seq<Byte>): Option<string> {
    if forall i :: 0 <= i < |data| ==> data[i] < 128
    then Some(seq(|data|, i requires 0 <= i < |data| => if data[i] < 128 then data[i] as char else ' '))
    else None
  }

  /** The text around the first colon. */
  function SplitColon(s: string): Option<(string, string)> {
    if s == "" then None
    else if s[0] == ':' then Some(("", s[1..]))
    else match SplitColon(s[1..])
      case None => None
      case Some((before, after)) => Some(([s[0]] + before, after))
  }

  /** Digits, with single underscores between them. */
  function Underscored(s: string, started: bool): Option<string> {
    if s == "" then if started then Some("") else None
    else if IsDigit(s[0]) then
      (match Underscored(s[1..], true) case None => None case Some(rest) => Some([s[0]] + rest))
    else if s[0] == '_' && started && |s| > 1 && IsDigit(s[1]) then Underscored(s[1..], true)
    else None
  }

  lemma {:induction false} UnderscoredDigits(s: string, started: bool)
    ensures Underscored(s, started).Some? ==>
              forall i :: 0 <= i < |Underscored(s, started).value| ==> IsDigit(Underscored(s, started).value[i])
    ensures (forall i :: 0 <= i < |s| ==> IsDigit(s[i])) && (started || s != "") ==> Underscored(s, started) == Some(s)
  {
    if s != "" {
      UnderscoredDigits(s[1..], true);
      assert s == [s[0]] + s[1..];
    }
  }

  /** A whole number as `int` reads it: blanks around it, a sign, underscores between digits. */
  function IntOf(text: string): Option<int> {
    var s := Strip(text);
    var negative := s != "" && s[0] == '-';
    var body := if s != "" && (s[0] == '-' || s[0] == '+') then s[1..] else s;
    UnderscoredDigits(body, false);
    match Underscored(body, false)
    case None => None
    case Some(digits) => Some(if negative then -(DecimalValue(digits) as int) else DecimalValue(digits))
  }

  function CursorText(offset: nat): string {
    VERSION + ":" + Decimal(offset)
  }

  lemma CursorIsAscii(offset: nat)
    ensures IsAscii(CursorText(offset))
  {
  }

  function EncodeCursor(offset: nat): string {
    CursorIsAscii(offset);
    StripPadding(Encode64(AsciiBytes(CursorText(offset))))
  }

  function Offset(text: string): Result<nat> {
    match SplitColon(text)
    case None => Err(INVALID_CURSOR)
    case Some((version, offset)) =>
      match IntOf(offset)
      case None => Err(INVALID_CURSOR)
      case Some(value) => if version != VERSION || value < 0 then Err(INVALID_CURSOR) else Ok(value)
  }

  function DecodeCursor(cursor: Option<string>): Result<nat> {
    match cursor
    case None => Ok(0)
    case Some(s) =>
      match Decode64(Padded(s), 0, 0, 0)
      case None => Err(INVALID_CURSOR)
      case Some(data) =>
        match TextOf(data)
        case None => Err(INVALID_CURSOR)
        case Some(text) => Offset(text)
  }

  lemma AsciiRoundTrip(s: string)
    requires IsAscii(s)
    ensures TextOf(AsciiBytes(s)) == Some(s)
  {
    var data := AsciiBytes(s);
    assert forall i :: 0 <= i < |data| ==> data[i] < 128;
    assert TextOf(data).value == s;
  }

  lemma DecimalIsInt(n: nat)
    ensures IntOf(Decimal(n)) == Some(n)
  {
    hide Decimal, DecimalValue, Strip, Underscored;
    var s := Decimal(n);
    DecimalRoundTrip(n);
    assert IsDigit(s[0]) && IsDigit(s[|s| - 1]);
    StripKeeps(s);
    UnderscoredDigits(s, false);
  }

  lemma CursorTextSplits(offset: nat)
    ensures SplitColon(CursorText(offset)) == Some((VERSION, Decimal(offset)))
  {
    hide Decimal;
    var s := CursorText(offset);
    assert s[1..][1..] == ":" + Decimal(offset);
    assert (":" + Decimal(offset))[1..] == Decimal(offset);
    assert SplitColon(s[1..][1..]) == Some(("", Decimal(offset)));
    assert ['1'] + "" == "1";
    assert SplitColon(s[1..]) == Some(("1", Decimal(offset)));
    assert ['v'] + "1" == VERSION;
  }

  /** Decoding an encoded cursor returns its offset, for every number. */
  lemma CursorRoundTrip(offset: nat)
    ensures DecodeCursor(Some(EncodeCursor(offset))) == Ok(offset)
  {
    hide Encode64, Decode64, StripPadding, Padded, CursorText, TextOf, AsciiBytes, SplitColon, IntOf, Decimal, IsAscii;
    CursorIsAscii(offset);
    var data := AsciiBytes(CursorText(offset));
    PaddingRoundTrip(data);
    Decode64RoundTrip(data);
    AsciiRoundTrip(CursorText(offset));
    CursorTextSplits(offset);
    DecimalIsInt(offset);
  }

  // ----- Pages ---------------------------------------------------------------------------

  datatype Page<T> = Page(items: seq<T>, next: Option<string>)

  function PageSlice<T>(items: seq<T>, cursor: Option<string>, limit: int): Result<Page<T>> {
    if limit < 1 || limit > 250 then Err(INVALID_PAGE_LIMIT)
    else match DecodeCursor(cursor)
      case Err(code) => Err(code)
      case Ok(offset) =>
        var start := if offset <= |items| then offset else |items|;
        var stop := if offset + limit <= |items| then offset + limit else |items|;
        var selected := items[start..stop];
        var next := offset + |selected|;
        Ok(Page(selected, if next < |items| then Some(EncodeCursor(next)) else None))
  }

  /** Where a cursor stands; an invalid one is past the end. */
  function Position<T>(items: seq<T>, cursor: Option<string>): nat {
    var offset := DecodeCursor(cursor);
    if offset.Ok? && offset.value <= |items| then offset.value else |items|
  }

  lemma NextAdvances<T>(items: seq<T>, cursor: Option<string>, limit: int)
    requires PageSlice(items, cursor, limit).Ok? && PageSlice(items, cursor, limit).value.next.Some?
    ensures var page := PageSlice(items, cursor, limit).value;
            && DecodeCursor(cursor).Ok? && DecodeCursor(cursor).value + limit < |items|
            && page.items == items[DecodeCursor(cursor).value..DecodeCursor(cursor).value + limit]
            && DecodeCursor(page.next) == Ok(DecodeCursor(cursor).value + limit)
            && Position(items, page.next) > Position(items, cursor)
  {
    hide DecodeCursor, EncodeCursor;
    CursorRoundTrip(DecodeCursor(cursor).value + |PageSlice(items, cursor, limit).value.items|);
  }

  /** Everything seen when each page's cursor is followed to the next page. */
  function Follow<T>(items: seq<T>, cursor: Option<string>, limit: int): seq<T>
    decreases |items| - Position(items, cursor)
  {
    match PageSlice(items, cursor, limit)
    case Err(_) => []
    case Ok(page) =>
      if page.next.None? then page.items
      else
        NextAdvances(items, cursor, limit);
        page.items + Follow(items, page.next, limit)
  }

  lemma {:induction false} FollowVisitsRest<T>(items: seq<T>, cursor: Option<string>, limit: int)
    requires 1 <= limit <= 250 && DecodeCursor(cursor).Ok? && DecodeCursor(cursor).value <= |items|
    ensures Follow(items, cursor, limit) == items[DecodeCursor(cursor).value..]
    decreases |items| - Position(items, cursor)
  {
    hide DecodeCursor, EncodeCursor;
    var page := PageSlice(items, cursor, limit).value;
    if page.next.Some? {
      NextAdvances(items, cursor, limit);
      FollowVisitsRest(items, page.next, limit);
    }
  }

  /** Following the cursors from the start ends, and visits every item exactly once and in order, for
      every list and every accepted limit. */
  lemma PagesVisitEverything<T>(items: seq<T>, limit: int)
    requires 1 <= limit <= 250
    ensures Follow(items, None, limit) == items
  {
    hide Follow;
    FollowVisitsRest(items, None, limit);
  }

  // ----- Refused cursors -----------------------------------------------------------------

  /** The cursor that carries a text. */
  function CursorOf(text: string): string
    requires IsAscii(text)
  {
    StripPadding(Encode64(AsciiBytes(text)))
  }

  lemma CarriedText(text: string)
    requires IsAscii(text)
    ensures DecodeCursor(Some(CursorOf(text))) == Offset(text)
  {
    hide Encode64, Decode64, StripPadding, Padded, TextOf, AsciiBytes, Offset, IsAscii;
    PaddingRoundTrip(AsciiBytes(text));
    Decode64RoundTrip(AsciiBytes(text));
    AsciiRoundTrip(text);
  }

  predicate NoColon(s: string) {
    forall i :: 0 <= i < |s| ==> s[i] != ':'
  }

  lemma {:induction false} SplitsAt(before: string, after: string)
    requires NoColon(before)
    ensures SplitColon(before + (":" + after)) == Some((before, after))
    ensures SplitColon(before) == None
  {
    if before == "" {
      assert before + (":" + after) == ":" + after;
      assert (":" + after)[1..] == after;
    } else {
      SplitsAt(before[1..], after);
      assert (before + (":" + after))[1..] == before[1..] + (":" + after);
      assert before == [before[0]] + before[1..];
    }
  }

  lemma NegativeIsInt(n: nat)
    requires n > 0
    ensures IntOf("-" + Decimal(n)) == Some(-(n as int))
  {
    hide Decimal, DecimalValue, Strip, Underscored;
    var s := "-" + Decimal(n);
    DecimalRoundTrip(n);
    assert s[1..] == Decimal(n) && s[|s| - 1] == Decimal(n)[|Decimal(n)| - 1];
    assert IsDigit(s[|s| - 1]);
    StripKeeps(s);
    UnderscoredDigits(Decimal(n), false);
  }

  /** A cursor of another version, with a negative offset, or without a colon is refused. */
  lemma ForeignCursorIsRefused(version: string, n: nat)
    requires IsAscii(version) && NoColon(version)
    ensures DecodeCursor(Some(CursorOf(version))) == Err(INVALID_CURSOR)
    ensures IsAscii(version + (":" + Decimal(n))) && IsAscii(version + (":" + ("-" + Decimal(n))))
    ensures version != VERSION ==> DecodeCursor(Some(CursorOf(version + (":" + Decimal(n))))) == Err(INVALID_CURSOR)
    ensures n > 0 ==> DecodeCursor(Some(CursorOf(version + (":" + ("-" + Decimal(n)))))) == Err(INVALID_CURSOR)
  {
    hide Decimal, IntOf, SplitColon, CursorOf, DecodeCursor;
    CarriedText(version);
    CarriedText(version + (":" + Decimal(n)));
    CarriedText(version + (":" + ("-" + Decimal(n))));
    SplitsAt(version, Decimal(n));
    SplitsAt(version, "-" + Decimal(n));
    DecimalIsInt(n);
    if n > 0 {
      NegativeIsInt(n);
    }
  }

  /** A page is given exactly for a limit from 1 to 250 and a cursor that can be read. */
  lemma PageIsGiven<T>(items: seq<T>, cursor: Option<string>, limit: int)
    ensures PageSlice(items, cursor, limit).Ok? <==> 1 <= limit <= 250 && DecodeCursor(cursor).Ok?
    ensures !(1 <= limit <= 250) ==> PageSlice(items, cursor, limit) == Err(INVALID_PAGE_LIMIT)
  {
    hide DecodeCursor, EncodeCursor;
  }
}
