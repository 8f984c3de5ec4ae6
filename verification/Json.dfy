/** Compact JSON as the service prints it, and the reader that takes it back. */
module Json {
  import opened Text

  datatype Json =
    | Null
    | Bool(b: bool)
    | Int(n: int)
    | Str(s: string)
    | Arr(items: seq<Json>)
    | Obj(members: seq<(string, Json)>)

  // ----- Digits --------------------------------------------------------------------------

  function DigitChar(d: nat): (c: char)
    requires d < 10
    ensures IsDigit(c)
  {
    '0' + d as char
  }

  function DigitValue(c: char): (d: nat)
    requires IsDigit(c)
    ensures d < 10 && DigitChar(d) == c
  {
    c as int - '0' as int
  }

  function HexChar(d: nat): (c: char)
    requires d < 16
    ensures HexValue(c) == Some(d)
  {
    if d < 10 then '0' + d as char else 'a' + (d - 10) as char
  }

  function HexValue(c: char): (r: Option<nat>)
    ensures r.Some? ==> r.value < 16
  {
    if IsDigit(c) then Some(c as int - '0' as int)
    else if 'a' <= c <= 'f' then Some(c as int - 'a' as int + 10)
    else if 'A' <= c <= 'F' then Some(c as int - 'A' as int + 10)
    else None
  }

  function Decimal(n: nat): (r: string)
    ensures r != "" && forall i :: 0 <= i < |r| ==> IsDigit(r[i])
  {
    if n < 10 then [DigitChar(n)] else Decimal(n / 10) + [DigitChar(n % 10)]
  }

  function DecimalValue(s: string): (r: nat)
    requires forall i :: 0 <= i < |s| ==> IsDigit(s[i])
  {
    if s == "" then 0
    else 10 * DecimalValue(s[..|s| - 1]) + DigitValue(s[|s| - 1])
  }

  lemma {:induction false} DecimalRoundTrip(n: nat)
    ensures DecimalValue(Decimal(n)) == n
    ensures n > 0 ==> Decimal(n)[0] != '0'
    ensures n == 0 ==> Decimal(n) == "0"
  {
    if n < 10 {
      assert Decimal(n)[..0] == "";
    } else {
      DecimalRoundTrip(n / 10);
      var s := Decimal(n);
      assert s[..|s| - 1] == Decimal(n / 10);
    }
  }

  // ----- Printing ------------------------------------------------------------------------

  /** One character of a string, escaped where section 7 of RFC 8259 demands it. */
  function EscapeChar(c: char): (r: string)
    ensures r != "" && forall i :: 0 <= i < |r| ==> r[i] >= ' '
  {
    if c == '"' then "\\\""
    else if c == '\\' then "\\\\"
    else if c == '\n' then "\\n"
    else if c == '\r' then "\\r"
    else if c == '\t' then "\\t"
    else if c == '\U{08}' then "\\b"
    else if c == '\U{0C}' then "\\f"
    else if c < ' ' then "\\u00" + [HexChar(c as int / 16), HexChar(c as int % 16)]
    else [c]
  }

  function Escape(s: string): (r: string)
    ensures forall i :: 0 <= i < |r| ==> r[i] >= ' '
  {
    if s == "" then "" else EscapeChar(s[0]) + Escape(s[1..])
  }

  function Quote(s: string): (r: string)
    ensures forall i :: 0 <= i < |r| ==> r[i] >= ' '
  {
    "\"" + Escape(s) + "\""
  }

  /** The printed form holds no character below the space: in particular no line break. */
  function Dump(j: Json): (r: string)
    ensures forall i :: 0 <= i < |r| ==> r[i] >= ' '
    decreases j, 1
  {
    match j
    case Null => "null"
    case Bool(b) => if b then "true" else "false"
    case Int(n) => if n < 0 then "-" + Decimal(-n) else Decimal(n)
    case Str(s) => Quote(s)
    case Arr(items) => "[" + DumpItems(items) + "]"
    case Obj(members) => "{" + DumpMembers(members) + "}"
  }

  function DumpItems(items: seq<Json>): (r: string)
    ensures forall i :: 0 <= i < |r| ==> r[i] >= ' '
    decreases items, 0
  {
    if items == [] then ""
    else if |items| == 1 then Dump(items[0])
    else Dump(items[0]) + "," + DumpItems(items[1..])
  }

  function DumpMember(member: (string, Json)): (r: string)
    ensures forall i :: 0 <= i < |r| ==> r[i] >= ' '
    decreases member, 0
  {
    Quote(member.0) + ":" + Dump(member.1)
  }

  function DumpMembers(members: seq<(string, Json)>): (r: string)
    ensures forall i :: 0 <= i < |r| ==> r[i] >= ' '
    decreases members, 0
  {
    if members == [] then ""
    else if |members| == 1 then DumpMember(members[0])
    else DumpMember(members[0]) + "," + DumpMembers(members[1..])
  }

  // ----- Reading -------------------------------------------------------------------------

  /** What a reader took and the text it left. */
  datatype Parsed<+T> = Fail | Got(value: T, rest: string)

  predicate IsBlank(c: char) {
    c == ' ' || c == '\t' || c == '\n' || c == '\r'
  }

  function SkipBlanks(s: string): (r: string)
    ensures |r| <= |s|
  {
    if s != "" && IsBlank(s[0]) then SkipBlanks(s[1..]) else s
  }

  function Hex4(s: string): (r: Option<nat>)
    ensures r.Some? ==> |s| >= 4 && r.value < 0x10000
  {
    if |s| < 4 then None else
    match (HexValue(s[0]), HexValue(s[1]), HexValue(s[2]), HexValue(s[3]))
    case (Some(a), Some(b), Some(c), Some(d)) => Some(((a * 16 + b) * 16 + c) * 16 + d)
    case _ => None
  }

  /** One escape, after its backslash. A surrogate must come as a pair. */
  function ReadEscape(s: string): (r: Parsed<char>)
    ensures r.Got? ==> |r.rest| < |s|
  {
    if s == "" then Fail
    else if s[0] == '"' || s[0] == '\\' || s[0] == '/' then Got(s[0], s[1..])
    else if s[0] == 'n' then Got('\n', s[1..])
    else if s[0] == 'r' then Got('\r', s[1..])
    else if s[0] == 't' then Got('\t', s[1..])
    else if s[0] == 'b' then Got('\U{08}', s[1..])
    else if s[0] == 'f' then Got('\U{0C}', s[1..])
    else if s[0] == 'u' then ReadUnicode(s[1..])
    else Fail
  }

  function ReadUnicode(s: string): (r: Parsed<char>)
    ensures r.Got? ==> |r.rest| < |s|
  {
    match Hex4(s)
    case None => Fail
    case Some(high) =>
      if high < 0xD800 || high >= 0xE000 then Got(high as char, s[4..])
      else if high < 0xDC00 && |s| >= 6 && s[4] == '\\' && s[5] == 'u' && Hex4(s[6..]).Some?
              && 0xDC00 <= Hex4(s[6..]).value < 0xE000
      then Got((0x10000 + (high - 0xD800) * 0x400 + (Hex4(s[6..]).value - 0xDC00)) as char, s[10..])
      else Fail
  }

  /** A string, after its opening quote. Raw control characters are refused. */
  function ReadString(s: string): (r: Parsed<string>)
    ensures r.Got? ==> |r.rest| < |s|
    decreases |s|
  {
    if s == "" || s[0] < ' ' then Fail
    else if s[0] == '"' then Got("", s[1..])
    else if s[0] == '\\' then
      match ReadEscape(s[1..])
      case Fail => Fail
      case Got(c, rest) => Prepend(c, ReadString(rest))
    else Prepend(s[0], ReadString(s[1..]))
  }

  function Prepend(c: char, r: Parsed<string>): Parsed<string> {
    match r
    case Fail => Fail
    case Got(s, rest) => Got([c] + s, rest)
  }

  function DigitRun(s: string): (n: nat)
    ensures n <= |s| && forall i :: 0 <= i < n ==> IsDigit(s[i])
    ensures n < |s| ==> !IsDigit(s[n])
  {
    if s != "" && IsDigit(s[0]) then 1 + DigitRun(s[1..]) else 0
  }

  /** A fraction or an exponent would make the number a float; those are not modelled. */
  predicate ContinuesAsFloat(s: string) {
    s != "" && (s[0] == '.' || s[0] == 'e' || s[0] == 'E')
  }

  function ReadNatural(s: string): (r: Parsed<nat>)
    ensures r.Got? ==> |r.rest| < |s|
  {
    var n := DigitRun(s);
    if n == 0 then Fail
    else
      var taken := if s[0] == '0' then 1 else n;
      if ContinuesAsFloat(s[taken..]) then Fail else Got(DecimalValue(s[..taken]), s[taken..])
  }

  function ReadInt(s: string): (r: Parsed<Json>)
    ensures r.Got? ==> |r.rest| < |s|
  {
    var negative := s != "" && s[0] == '-';
    match ReadNatural(if negative then s[1..] else s)
    case Fail => Fail
    case Got(n, rest) => Got(Int(if negative then -(n as int) else n), rest)
  }

  predicate Starts(s: string, prefix: string) {
    |prefix| <= |s| && s[..|prefix|] == prefix
  }

  function ReadValue(s: string): (r: Parsed<Json>)
    ensures r.Got? ==> |r.rest| < |s|
    decreases |s|, 2
  {
    if s == "" then Fail
    else if s[0] == '"' then
      match ReadString(s[1..])
      case Fail => Fail
      case Got(text, rest) => Got(Str(text), rest)
    else if s[0] == '[' then
      var inner := SkipBlanks(s[1..]);
      if inner != "" && inner[0] == ']' then Got(Arr([]), inner[1..]) else
      match ReadItems(inner)
      case Fail => Fail
      case Got(items, rest) => Got(Arr(items), rest)
    else if s[0] == '{' then
      var inner := SkipBlanks(s[1..]);
      if inner != "" && inner[0] == '}' then Got(Obj([]), inner[1..]) else
      match ReadMembers(inner)
      case Fail => Fail
      case Got(members, rest) => Got(Obj(members), rest)
    else if Starts(s, "null") then Got(Null, s[4..])
    else if Starts(s, "true") then Got(Bool(true), s[4..])
    else if Starts(s, "false") then Got(Bool(false), s[5..])
    else ReadInt(s)
  }

  /** Items up to and including the closing bracket. */
  function ReadItems(s: string): (r: Parsed<seq<Json>>)
    ensures r.Got? ==> |r.rest| < |s|
    decreases |s|, 3
  {
    match ReadValue(s)
    case Fail => Fail
    case Got(item, rest) =>
      var next := SkipBlanks(rest);
      if next == "" then Fail
      else if next[0] == ']' then Got([item], next[1..])
      else if next[0] != ',' then Fail
      else
        match ReadItems(SkipBlanks(next[1..]))
        case Fail => Fail
        case Got(items, rest') => Got([item] + items, rest')
  }

  function ReadMember(s: string): (r: Parsed<(string, Json)>)
    ensures r.Got? ==> |r.rest| < |s|
    decreases |s|, 3
  {
    if s == "" || s[0] != '"' then Fail else
    match ReadString(s[1..])
    case Fail => Fail
    case Got(key, rest) =>
      var colon := SkipBlanks(rest);
      if colon == "" || colon[0] != ':' then Fail else
      match ReadValue(SkipBlanks(colon[1..]))
      case Fail => Fail
      case Got(value, rest') => Got((key, value), rest')
  }

  /** Members up to and including the closing brace. */
  function ReadMembers(s: string): (r: Parsed<seq<(string, Json)>>)
    ensures r.Got? ==> |r.rest| < |s|
    decreases |s|, 4
  {
    match ReadMember(s)
    case Fail => Fail
    case Got(member, rest) =>
      var next := SkipBlanks(rest);
      if next == "" then Fail
      else if next[0] == '}' then Got([member], next[1..])
      else if next[0] != ',' then Fail
      else
        match ReadMembers(SkipBlanks(next[1..]))
        case Fail => Fail
        case Got(members, rest') => Got([member] + members, rest')
  }

  /** A whole text that holds one value. */
  function Load(s: string): Option<Json> {
    match ReadValue(SkipBlanks(s))
    case Fail => None
    case Got(j, rest) => if SkipBlanks(rest) == "" then Some(j) else None
  }

  // ----- Printing and reading back -------------------------------------------------------

  lemma ReadStringUnfold(s: string)
    requires s != "" && s[0] >= ' ' && s[0] != '"'
    ensures ReadString(s) ==
            if s[0] == '\\' then
              match ReadEscape(s[1..])
              case Fail => Fail
              case Got(c, rest) => Prepend(c, ReadString(rest))
            else Prepend(s[0], ReadString(s[1..]))
  {
  }

  lemma EscapedControl(c: char, t: string)
    requires c < ' '
    ensures ReadEscape("u00" + [HexChar(c as int / 16), HexChar(c as int % 16)] + t) == Got(c, t)
  {
  }

  lemma EscapeRoundTrip(c: char, t: string)
    ensures ReadString(EscapeChar(c) + t) == Prepend(c, ReadString(t))
  {
    hide ReadString, Hex4, ReadUnicode;
    var s := EscapeChar(c) + t;
    ReadStringUnfold(s);
    if c < ' ' && c != '\n' && c != '\r' && c != '\t' && c != '\U{08}' && c != '\U{0C}' {
      EscapedControl(c, t);
      assert s[1..] == "u00" + [HexChar(c as int / 16), HexChar(c as int % 16)] + t;
    } else if EscapeChar(c) == [c] {
      assert s[1..] == t;
    } else {
      assert |EscapeChar(c)| == 2 && s[1..] == [EscapeChar(c)[1]] + t;
      assert s[1..][1..] == t;
    }
  }

  lemma {:induction false} StringRoundTrip(s: string, t: string)
    ensures ReadString(Escape(s) + ("\"" + t)) == Got(s, t)
  {
    hide EscapeChar;
    if s == "" {
      assert Escape(s) + ("\"" + t) == "\"" + t;
    } else {
      Associate(EscapeChar(s[0]), Escape(s[1..]), "\"" + t);
      EscapeRoundTrip(s[0], Escape(s[1..]) + ("\"" + t));
      StringRoundTrip(s[1..], t);
      assert [s[0]] + s[1..] == s;
    }
  }

  lemma {:induction false} DigitRunOf(digits: string, t: string)
    requires forall i :: 0 <= i < |digits| ==> IsDigit(digits[i])
    requires t == "" || !IsDigit(t[0])
    ensures DigitRun(digits + t) == |digits|
  {
    if digits == "" {
      assert digits + t == t;
    } else {
      assert (digits + t)[1..] == digits[1..] + t;
      DigitRunOf(digits[1..], t);
    }
  }

  /** What may follow a value inside or after the printed text. */
  predicate Delimited(t: string) {
    t == "" || !(IsDigit(t[0]) || t[0] == '.' || t[0] == 'e' || t[0] == 'E')
  }

  lemma NaturalRoundTrip(n: nat, t: string)
    requires Delimited(t)
    ensures ReadNatural(Decimal(n) + t) == Got(n, t)
  {
    hide Decimal, DigitRun, DecimalValue;
    DecimalRoundTrip(n);
    DigitRunOf(Decimal(n), t);
    assert (Decimal(n) + t)[..|Decimal(n)|] == Decimal(n);
    assert (Decimal(n) + t)[|Decimal(n)|..] == t;
  }

  lemma NoBlanks(s: string)
    requires s == "" || !IsBlank(s[0])
    ensures SkipBlanks(s) == s
  {
  }

  lemma IntRoundTrip(n: int, t: string)
    requires Delimited(t)
    ensures ReadValue(Dump(Int(n)) + t) == Got(Int(n), t)
  {
    hide ReadNatural, Decimal;
    var s := Dump(Int(n)) + t;
    if n < 0 {
      assert s[1..] == Decimal(-n) + t;
      NaturalRoundTrip(-n, t);
    } else {
      NaturalRoundTrip(n, t);
    }
  }

  lemma QuoteRoundTrip(s: string, t: string)
    ensures Quote(s) + t != "" && (Quote(s) + t)[0] == '"'
    ensures ReadString((Quote(s) + t)[1..]) == Got(s, t)
  {
    hide Escape, ReadString;
    assert (Quote(s) + t)[1..] == Escape(s) + ("\"" + t);
    StringRoundTrip(s, t);
  }

  /** No printed value starts with a blank or a closing bracket. */
  lemma DumpStarts(j: Json, t: string)
    ensures Dump(j) != ""
    ensures var c := (Dump(j) + t)[0]; !IsBlank(c) && c != ']' && c != '}'
  {
  }

  lemma LiteralRoundTrip(j: Json, t: string)
    requires j.Null? || j.Bool?
    ensures ReadValue(Dump(j) + t) == Got(j, t)
  {
    var s := Dump(j) + t;
    match j
    case Null =>
      assert s[..4] == "null" && s[4..] == t;
    case Bool(b) =>
      if b {
        assert s[..4] == "true" && s[4..] == t;
      } else {
        assert s[..5] == "false" && s[5..] == t;
      }
  }

  lemma ArrayUnfold(s: string, inner: string)
    requires s == "[" + inner && inner != "" && !IsBlank(inner[0]) && inner[0] != ']'
    ensures ReadValue(s) ==
            match ReadItems(inner)
            case Fail => Fail
            case Got(items, rest) => Got(Arr(items), rest)
  {
  }

  lemma ObjectUnfold(s: string, inner: string)
    requires s == "{" + inner && inner != "" && !IsBlank(inner[0]) && inner[0] != '}'
    ensures ReadValue(s) ==
            match ReadMembers(inner)
            case Fail => Fail
            case Got(members, rest) => Got(Obj(members), rest)
  {
    NoBlanks(inner);
    assert s[1..] == inner;
  }

  /** Whatever value is printed, reading returns it and leaves exactly what followed. */
  lemma {:induction false} ValueRoundTrip(j: Json, t: string)
    requires Delimited(t)
    ensures ReadValue(Dump(j) + t) == Got(j, t)
    decreases j, 1
  {
    hide ReadString, Decimal, Escape, Quote, ReadItems, ReadMembers, ReadValue, ReadInt;
    match j
    case Null => LiteralRoundTrip(j, t);
    case Bool(b) => LiteralRoundTrip(j, t);
    case Int(n) => IntRoundTrip(n, t);
    case Str(text) => StrRoundTrip(text, t);
    case Arr(items) =>
      Associate("[" + DumpItems(items), "]", t);
      Associate("[", DumpItems(items), "]" + t);
      if items == [] {
        EmptyRoundTrip(j, t);
      } else {
        ItemsStart(items, "]" + t);
        ArrayUnfold(Dump(j) + t, DumpItems(items) + ("]" + t));
        ItemsRoundTrip(items, t);
      }
    case Obj(members) =>
      Associate("{" + DumpMembers(members), "}", t);
      Associate("{", DumpMembers(members), "}" + t);
      if members == [] {
        EmptyRoundTrip(j, t);
      } else {
        MembersStart(members, "}" + t);
        ObjectUnfold(Dump(j) + t, DumpMembers(members) + ("}" + t));
        MembersRoundTrip(members, t);
      }
  }

  lemma StrRoundTrip(text: string, t: string)
    ensures ReadValue(Dump(Str(text)) + t) == Got(Str(text), t)
  {
    hide ReadString, Quote;
    QuoteRoundTrip(text, t);
  }

  lemma EmptyRoundTrip(j: Json, t: string)
    requires j == Arr([]) || j == Obj([])
    ensures ReadValue(Dump(j) + t) == Got(j, t)
  {
  }

  lemma ItemsStart(items: seq<Json>, t: string)
    requires items != []
    ensures DumpItems(items) + t != ""
    ensures var c := (DumpItems(items) + t)[0]; !IsBlank(c) && c != ']'
  {
    hide Dump;
    DumpStarts(items[0], "");
    assert Dump(items[0]) + "" == Dump(items[0]);
  }

  lemma MembersStart(members: seq<(string, Json)>, t: string)
    requires members != []
    ensures DumpMembers(members) + t != "" && (DumpMembers(members) + t)[0] == '"'
  {
  }

  lemma ItemsUnfold(s: string)
    ensures ReadItems(s) ==
            match ReadValue(s)
            case Fail => Fail
            case Got(item, rest) =>
              var next := SkipBlanks(rest);
              if next == "" then Fail
              else if next[0] == ']' then Got([item], next[1..])
              else if next[0] != ',' then Fail
              else
                match ReadItems(SkipBlanks(next[1..]))
                case Fail => Fail
                case Got(items, rest') => Got([item] + items, rest')
  {
  }

  lemma {:induction false} ItemsRoundTrip(items: seq<Json>, t: string)
    requires items != []
    ensures ReadItems(DumpItems(items) + ("]" + t)) == Got(items, t)
    decreases items, 0
  {
    hide ReadItems, ReadValue, Dump;
    var s := DumpItems(items) + ("]" + t);
    ItemsUnfold(s);
    if |items| == 1 {
      NoBlanks("]" + t);
      ValueRoundTrip(items[0], "]" + t);
      assert [items[0]] == items && ("]" + t)[1..] == t;
    } else {
      var more := DumpItems(items[1..]) + ("]" + t);
      Associate(Dump(items[0]) + ",", DumpItems(items[1..]), "]" + t);
      Associate(Dump(items[0]), ",", more);
      NoBlanks("," + more);
      ValueRoundTrip(items[0], "," + more);
      ItemsStart(items[1..], "]" + t);
      NoBlanks(more);
      ItemsRoundTrip(items[1..], t);
      assert ("," + more)[1..] == more;
      assert [items[0]] + items[1..] == items;
    }
  }

  lemma {:induction false} MemberRoundTrip(member: (string, Json), t: string)
    requires Delimited(t)
    ensures ReadMember(DumpMember(member) + t) == Got(member, t)
    decreases member, 0
  {
    hide ReadString, ReadValue, Dump, Quote;
    var value := Dump(member.1) + t;
    Associate(Quote(member.0) + ":", Dump(member.1), t);
    Associate(Quote(member.0), ":", value);
    QuoteRoundTrip(member.0, ":" + value);
    NoBlanks(":" + value);
    DumpStarts(member.1, t);
    NoBlanks(value);
    assert (":" + value)[1..] == value;
    ValueRoundTrip(member.1, t);
  }

  lemma MembersUnfold(s: string)
    ensures ReadMembers(s) ==
            match ReadMember(s)
            case Fail => Fail
            case Got(member, rest) =>
              var next := SkipBlanks(rest);
              if next == "" then Fail
              else if next[0] == '}' then Got([member], next[1..])
              else if next[0] != ',' then Fail
              else
                match ReadMembers(SkipBlanks(next[1..]))
                case Fail => Fail
                case Got(members, rest') => Got([member] + members, rest')
  {
  }

  lemma {:induction false} MembersRoundTrip(members: seq<(string, Json)>, t: string)
    requires members != []
    ensures ReadMembers(DumpMembers(members) + ("}" + t)) == Got(members, t)
    decreases members, 0
  {
    hide ReadMembers, ReadMember, DumpMember;
    var s := DumpMembers(members) + ("}" + t);
    MembersUnfold(s);
    if |members| == 1 {
      NoBlanks("}" + t);
      MemberRoundTrip(members[0], "}" + t);
      assert [members[0]] == members && ("}" + t)[1..] == t;
    } else {
      var more := DumpMembers(members[1..]) + ("}" + t);
      Associate(DumpMember(members[0]) + ",", DumpMembers(members[1..]), "}" + t);
      Associate(DumpMember(members[0]), ",", more);
      NoBlanks("," + more);
      MemberRoundTrip(members[0], "," + more);
      MembersStart(members[1..], "}" + t);
      NoBlanks(more);
      MembersRoundTrip(members[1..], t);
      assert ("," + more)[1..] == more;
      assert [members[0]] + members[1..] == members;
    }
  }

  /** `json.loads(json.dumps(j))` is `j`, whatever characters its strings hold. */
  lemma LoadDump(j: Json)
    ensures Load(Dump(j)) == Some(j)
  {
    hide ReadValue, Dump;
    assert Dump(j) + "" == Dump(j);
    DumpStarts(j, "");
    NoBlanks(Dump(j));
    ValueRoundTrip(j, "");
  }

  predicate AllBlank(s: string) {
    forall i :: 0 <= i < |s| ==> IsBlank(s[i])
  }

  lemma {:induction false} BlanksSkipped(before: string, t: string)
    requires AllBlank(before)
    ensures SkipBlanks(before + t) == SkipBlanks(t)
  {
    if before == "" {
      assert before + t == t;
    } else {
      BlanksSkipped(before[1..], t);
      assert (before + t)[1..] == before[1..] + t;
    }
  }

  lemma {:induction false} OnlyBlanks(t: string)
    ensures SkipBlanks(t) == "" <==> AllBlank(t)
  {
    if t != "" && IsBlank(t[0]) {
      OnlyBlanks(t[1..]);
      assert t == [t[0]] + t[1..];
      assert forall i :: 0 <= i < |t[1..]| ==> t[1..][i] == t[i + 1];
    }
  }

  /** A printed value with blanks before it loads exactly when nothing but blanks is behind it. */
  lemma LoadExactly(before: string, j: Json, after: string)
    requires AllBlank(before) && Delimited(after)
    ensures Load(before + (Dump(j) + after)) == if AllBlank(after) then Some(j) else None
  {
    hide ReadValue, Dump, SkipBlanks, AllBlank;
    BlanksSkipped(before, Dump(j) + after);
    DumpStarts(j, after);
    NoBlanks(Dump(j) + after);
    ValueRoundTrip(j, after);
    OnlyBlanks(after);
  }
}
