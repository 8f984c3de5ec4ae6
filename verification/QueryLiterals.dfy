/** Canonicalising a read query: its literals become parameters and its tables are qualified. */
module QueryLiterals {
  import opened Text
  import opened Json
  import opened Splicing

  // ----- Literal values ------------------------------------------------------------------

  datatype Value = Quoted(text: string) | Integer(value: int) | Fraction(digits: string)

  const LITERAL_INVALID := "QUERY_LITERAL_INVALID"
  const STRUCTURAL_INVALID := "QUERY_STRUCTURAL_LITERAL_INVALID"
  const CANONICALIZATION_FAILED := "QUERY_CANONICALIZATION_FAILED"

  /** Doubled quotes stand for one, read from the left. */
  function Undouble(s: string): string {
    if s == "" then ""
    else if |s| > 1 && s[0] == '\'' && s[1] == '\'' then "'" + Undouble(s[2..])
    else [s[0]] + Undouble(s[1..])
  }

  function Double(s: string): string {
    if s == "" then "" else (if s[0] == '\'' then "''" else [s[0]]) + Double(s[1..])
  }

  predicate IsNumber(s: string) {
    s != "" && forall i :: 0 <= i < |s| ==> IsDigit(s[i])
  }

  function Unsigned(s: string): string {
    if s != "" && (s[0] == '+' || s[0] == '-') then s[1..] else s
  }

  predicate IsExponent(s: string) {
    s == "" || ((s[0] == 'E' || s[0] == 'e') && IsNumber(Unsigned(s[1..])))
  }

  /** How many digits a text starts with. */
  function DigitPrefix(s: string): (n: nat)
    ensures n <= |s|
  {
    if s != "" && IsDigit(s[0]) then 1 + DigitPrefix(s[1..]) else 0
  }

  /** Digits around a point, at least one of them, and an optional exponent. */
  predicate IsFraction(s: string) {
    var whole := DigitPrefix(s);
    && whole < |s| && s[whole] == '.'
    && (var part := DigitPrefix(s[whole + 1..]);
        whole + part > 0 && IsExponent(s[whole + 1..][part..]))
  }

  function LiteralValue(raw: string): Result<Value> {
    var stripped := Strip(raw);
    var value := if |stripped| >= 3 && (stripped[0] == 'N' || stripped[0] == 'n') && stripped[1] == '\''
                 then stripped[1..] else stripped;
    if |value| >= 2 && value[0] == '\'' && value[|value| - 1] == '\'' then Ok(Quoted(Undouble(value[1..|value| - 1])))
    else if IsNumber(Unsigned(value)) then
      Ok(Integer(if value[0] == '-' then -(DecimalValue(Unsigned(value)) as int) else DecimalValue(Unsigned(value))))
    else if IsFraction(Unsigned(value)) then Ok(Fraction(value))
    else Err(LITERAL_INVALID)
  }

  lemma {:induction false} UndoubleDouble(s: string)
    ensures Undouble(Double(s)) == s
  {
    if s != "" {
      UndoubleDouble(s[1..]);
      assert s == [s[0]] + s[1..];
      if s[0] == '\'' {
        assert Double(s)[2..] == Double(s[1..]);
      } else {
        assert Double(s)[1..] == Double(s[1..]);
      }
    }
  }

  function QuoteLiteral(text: string): string {
    "'" + Double(text) + "'"
  }

  lemma QuotedIsDelimited(text: string)
    ensures var q := QuoteLiteral(text);
            |q| >= 2 && q[0] == '\'' && q[|q| - 1] == '\'' && q[1..|q| - 1] == Double(text)
  {
  }

  /** A quoted literal, national or not, is bound as the text it quotes, whatever that holds. */
  lemma QuotedRoundTrip(text: string, national: bool)
    ensures LiteralValue((if national then "N" else "") + QuoteLiteral(text)) == Ok(Quoted(text))
  {
    hide QuoteLiteral, Double, Undouble, Strip, IsNumber, IsFraction, Unsigned;
    var q := QuoteLiteral(text);
    var raw := (if national then "N" else "") + q;
    QuotedIsDelimited(text);
    assert national ==> raw[1..] == q;
    assert !national ==> raw == q;
    assert raw[|raw| - 1] == q[|q| - 1];
    StripKeeps(raw);
    UndoubleDouble(text);
  }

  // ----- Literals of a query -------------------------------------------------------------

  datatype Slice = Slice(start: nat, stop: nat)

  /** A literal of the parsed query; `structural` ones (limits, ordering positions) stay in the text. */
  datatype Literal = Literal(slice: Option<Slice>, raw: string, structural: bool)

  /** Unplaced literals sort first. */
  function SortKey(l: Literal): int {
    if l.slice.Some? then l.slice.value.start else -1
  }

  function InsertLiteral(l: Literal, sorted: seq<Literal>): seq<Literal> {
    if sorted == [] || SortKey(l) < SortKey(sorted[0]) then [l] + sorted
    else [sorted[0]] + InsertLiteral(l, sorted[1..])
  }

  function SortLiterals(literals: seq<Literal>): seq<Literal> {
    if literals == [] then []
    else InsertLiteral(literals[|literals| - 1], SortLiterals(literals[..|literals| - 1]))
  }

  datatype Parameters = Parameters(values: seq<Value>, spans: seq<Span>)

  /** One literal: a structural one must be a plain number; another is bound to the next placeholder. */
  function Bind(p: Parameters, l: Literal, placeholder: nat -> string): Result<Parameters> {
    if l.slice.None? then Err(CANONICALIZATION_FAILED)
    else if l.structural then
      if IsNumber(Strip(l.raw)) then Ok(p) else Err(STRUCTURAL_INVALID)
    else match LiteralValue(l.raw)
      case Err(code) => Err(code)
      case Ok(value) =>
        Ok(Parameters(p.values + [value],
                      p.spans + [Span(l.slice.value.start, l.slice.value.stop, placeholder(|p.values| + 1))]))
  }

  const NO_PARAMETERS := Parameters([], [])

  function BindAll(literals: seq<Literal>, placeholder: nat -> string): Result<Parameters> {
    if literals == [] then Ok(NO_PARAMETERS) else
    match BindAll(literals[..|literals| - 1], placeholder)
    case Err(code) => Err(code)
    case Ok(p) => Bind(p, literals[|literals| - 1], placeholder)
  }

  method ParameterizeLiterals(literals: seq<Literal>, placeholder: nat -> string) returns (r: Result<Parameters>)
    ensures r == BindAll(SortLiterals(literals), placeholder)
  {
    hide Strip, LiteralValue, IsNumber, SortLiterals;
    var sorted := SortLiterals(literals);
    var parameters: seq<Value>, replacements: seq<Span> := [], [];
    for i := 0 to |sorted|
      invariant BindAll(sorted[..i], placeholder) == Ok(Parameters(parameters, replacements))
    {
      var l := sorted[i];
      assert sorted[..i + 1][..i] == sorted[..i];
      BindFails(sorted, i + 1, placeholder);
      if l.slice.None? {
        return Err(CANONICALIZATION_FAILED);
      }
      if l.structural {
        if !IsNumber(Strip(l.raw)) {
          return Err(STRUCTURAL_INVALID);
        }
      } else {
        var value := LiteralValue(l.raw);
        if value.Err? {
          return Err(value.code);
        }
        parameters := parameters + [value.value];
        replacements := replacements + [Span(l.slice.value.start, l.slice.value.stop, placeholder(|parameters|))];
      }
    }
    assert sorted[..|sorted|] == sorted;
    return Ok(Parameters(parameters, replacements));
  }

  lemma {:induction false} BindFails(literals: seq<Literal>, n: nat, placeholder: nat -> string)
    requires n <= |literals|
    ensures BindAll(literals[..n], placeholder).Err? ==>
              BindAll(literals, placeholder) == BindAll(literals[..n], placeholder)
  {
    hide Bind;
    if n == |literals| {
      assert literals[..n] == literals;
    } else {
      assert literals[..|literals| - 1][..n] == literals[..n];
      BindFails(literals[..|literals| - 1], n, placeholder);
    }
  }

  /** The literals that become parameters, in order. */
  function Bound(literals: seq<Literal>): seq<Literal> {
    if literals == [] then []
    else Bound(literals[..|literals| - 1])
         + (if literals[|literals| - 1].structural then [] else [literals[|literals| - 1]])
  }

  predicate Corresponds(p: Parameters, bound: seq<Literal>, placeholder: nat -> string) {
    && |p.values| == |p.spans| == |bound|
    && forall k :: 0 <= k < |bound| ==>
         && bound[k].slice == Some(Slice(p.spans[k].start, p.spans[k].stop))
         && LiteralValue(bound[k].raw) == Ok(p.values[k])
         && p.spans[k].text == placeholder(k + 1)
  }

  /** The k-th parameter is the k-th literal's value, and the k-th placeholder stands for that literal. */
  lemma {:induction false} ParametersCorrespond(literals: seq<Literal>, placeholder: nat -> string)
    requires BindAll(literals, placeholder).Ok?
    ensures Corresponds(BindAll(literals, placeholder).value, Bound(literals), placeholder)
  {
    hide Bind, Corresponds;
    if literals == [] {
      NothingCorresponds(placeholder);
    } else {
      ParametersCorrespond(literals[..|literals| - 1], placeholder);
      BindCorresponds(BindAll(literals[..|literals| - 1], placeholder).value, Bound(literals[..|literals| - 1]),
                      literals[|literals| - 1], placeholder);
    }
  }

  lemma NothingCorresponds(placeholder: nat -> string)
    ensures Corresponds(NO_PARAMETERS, [], placeholder)
  {
  }

  lemma BindCorresponds(p: Parameters, bound: seq<Literal>, l: Literal, placeholder: nat -> string)
    requires Corresponds(p, bound, placeholder) && Bind(p, l, placeholder).Ok?
    ensures Corresponds(Bind(p, l, placeholder).value, bound + (if l.structural then [] else [l]), placeholder)
  {
  }

  predicate Ascending(literals: seq<Literal>) {
    forall i, j :: 0 <= i < j < |literals| ==> SortKey(literals[i]) <= SortKey(literals[j])
  }

  lemma {:induction false} InsertKeepsLiterals(l: Literal, sorted: seq<Literal>)
    ensures multiset(InsertLiteral(l, sorted)) == multiset(sorted) + multiset{l}
  {
    hide SortKey;
    if sorted != [] {
      InsertKeepsLiterals(l, sorted[1..]);
      assert sorted == [sorted[0]] + sorted[1..];
    }
  }

  lemma AscendingCons(l: Literal, rest: seq<Literal>)
    requires Ascending(rest) && forall x :: x in rest ==> SortKey(l) <= SortKey(x)
    ensures Ascending([l] + rest)
  {
  }

  lemma AscendingHead(literals: seq<Literal>)
    requires Ascending(literals) && literals != []
    ensures Ascending(literals[1..]) && forall x :: x in literals ==> SortKey(literals[0]) <= SortKey(x)
  {
  }

  lemma {:induction false} InsertAscending(l: Literal, sorted: seq<Literal>)
    requires Ascending(sorted)
    ensures Ascending(InsertLiteral(l, sorted))
  {
    hide SortKey, Ascending;
    if sorted == [] {
      NothingAscends();
      AscendingCons(l, []);
    } else {
      AscendingHead(sorted);
      if SortKey(l) < SortKey(sorted[0]) {
        AscendingCons(l, sorted);
      } else {
        var rest := InsertLiteral(l, sorted[1..]);
        InsertAscending(l, sorted[1..]);
        InsertKeepsLiterals(l, sorted[1..]);
        forall x | x in rest ensures SortKey(sorted[0]) <= SortKey(x) {
          assert x in multiset(rest);
          assert x == l || x in sorted[1..];
        }
        AscendingCons(sorted[0], rest);
      }
    }
  }

  lemma {:induction false} SortAscends(literals: seq<Literal>)
    ensures Ascending(SortLiterals(literals)) && multiset(SortLiterals(literals)) == multiset(literals)
  {
    hide Ascending, InsertLiteral;
    if literals == [] {
      NothingAscends();
    } else {
      var init, last := literals[..|literals| - 1], literals[|literals| - 1];
      assert literals == init + [last];
      SortAscends(init);
      InsertAscending(last, SortLiterals(init));
      InsertKeepsLiterals(last, SortLiterals(init));
    }
  }

  lemma NothingAscends()
    ensures Ascending([])
  {
  }

  lemma {:induction false} BoundAscends(literals: seq<Literal>)
    requires Ascending(literals)
    ensures Ascending(Bound(literals))
    ensures forall l :: l in Bound(literals) ==> l in literals
  {
    hide SortKey;
    if literals != [] {
      BoundAscends(literals[..|literals| - 1]);
      assert literals == literals[..|literals| - 1] + [literals[|literals| - 1]];
      LastIsLargest(literals);
    }
  }

  lemma LastIsLargest(literals: seq<Literal>)
    requires Ascending(literals) && literals != []
    ensures forall l :: l in literals ==> SortKey(l) <= SortKey(literals[|literals| - 1])
  {
  }

  // ----- The canonical text --------------------------------------------------------------

  /** The spans of a chain that replace literals. */
  function OnlyOf(chain: seq<Span>, spans: seq<Span>): seq<Span> {
    if chain == [] then []
    else (if chain[0] in spans then [chain[0]] else []) + OnlyOf(chain[1..], spans)
  }

  predicate Solid(spans: seq<Span>) {
    forall i :: 0 <= i < |spans| ==> spans[i].start < spans[i].stop
  }

  lemma {:induction false} OnlyIsChain(chain: seq<Span>, spans: seq<Span>, length: nat)
    requires IsChain(chain, length) && Solid(chain)
    ensures IsChain(OnlyOf(chain, spans), length) && Solid(OnlyOf(chain, spans))
    ensures forall s :: s in OnlyOf(chain, spans) <==> s in chain && s in spans
  {
    hide IsChain;
    if chain != [] {
      ChainTail(chain, length);
      ChainHead(chain, length);
      OnlyIsChain(chain[1..], spans, length);
      assert chain == [chain[0]] + chain[1..];
      assert chain[0] in chain;
      ChainCons(chain[0], OnlyOf(chain[1..], spans), length);
      assert [] + OnlyOf(chain[1..], spans) == OnlyOf(chain[1..], spans);
    }
  }

  /** Two chains of the same spans are the same chain. */
  lemma {:induction false} ChainIsUnique(a: seq<Span>, b: seq<Span>, length: nat)
    requires IsChain(a, length) && IsChain(b, length) && Solid(a) && Solid(b)
    requires forall s :: s in a <==> s in b
    ensures a == b
  {
    hide IsChain;
    SameEmptiness(a, b);
    if a != [] {
      ChainHead(a, length);
      ChainHead(b, length);
      ChainTail(a, length);
      ChainTail(b, length);
      FirstIsSame(a, b, length);
      assert a == [a[0]] + a[1..] && b == [b[0]] + b[1..];
      forall s ensures s in a[1..] <==> s in b[1..] {
        assert s in a[1..] ==> s in a && s != a[0];
        assert s in b[1..] ==> s in b && s != b[0];
      }
      ChainIsUnique(a[1..], b[1..], length);
    }
  }

  lemma SameEmptiness(a: seq<Span>, b: seq<Span>)
    requires forall s :: s in a <==> s in b
    ensures a == [] <==> b == []
  {
    assert a != [] ==> a[0] in b;
    assert b != [] ==> b[0] in a;
  }

  lemma FirstIsSame(a: seq<Span>, b: seq<Span>, length: nat)
    requires IsChain(a, length) && IsChain(b, length) && Solid(a) && Solid(b) && a != [] && b != []
    requires forall s :: s in a <==> s in b
    ensures a[0] == b[0]
  {
    hide IsChain;
    ChainHead(a, length);
    ChainHead(b, length);
    assert a[0] in b && b[0] in a;
    assert a == [a[0]] + a[1..] && b == [b[0]] + b[1..];
  }

  /** Tables and literals apart, each a non-empty slice of the query. */
  predicate Sliced(sql: string, tables: seq<Span>, spans: seq<Span>) {
    AreApart(tables + spans, |sql|)
  }

  lemma SpansAreChain(sql: string, tables: seq<Span>, literals: seq<Literal>, placeholder: nat -> string)
    requires BindAll(SortLiterals(literals), placeholder).Ok?
    requires Sliced(sql, tables, BindAll(SortLiterals(literals), placeholder).value.spans)
    ensures IsChain(BindAll(SortLiterals(literals), placeholder).value.spans, |sql|)
    ensures Solid(BindAll(SortLiterals(literals), placeholder).value.spans)
  {
    hide BindAll, SortLiterals, Bound, LiteralValue;
    var sorted := SortLiterals(literals);
    var spans := BindAll(sorted, placeholder).value.spans;
    SortAscends(literals);
    BoundAscends(sorted);
    ParametersCorrespond(sorted, placeholder);
    var bound := Bound(sorted);
    forall i | 0 <= i < |spans| ensures spans[i].start < spans[i].stop <= |sql| {
      assert (tables + spans)[|tables| + i] == spans[i];
    }
    forall i, j | 0 <= i < j < |spans| ensures spans[i].stop <= spans[j].start {
      assert (tables + spans)[|tables| + i] == spans[i] && (tables + spans)[|tables| + j] == spans[j];
      assert Apart(spans[i], spans[j]);
      assert SortKey(bound[i]) <= SortKey(bound[j]);
    }
  }

  /** Read from left to right, the placeholders of the canonical text are those of the parameters, in
      the parameters' order. */
  lemma PlaceholdersInOrder(sql: string, tables: seq<Span>, literals: seq<Literal>, placeholder: nat -> string)
    requires BindAll(SortLiterals(literals), placeholder).Ok?
    requires Sliced(sql, tables, BindAll(SortLiterals(literals), placeholder).value.spans)
    ensures var p := BindAll(SortLiterals(literals), placeholder).value;
            && Corresponds(p, Bound(SortLiterals(literals)), placeholder)
            && IsChain(SortSpans(tables + p.spans), |sql|)
            && OnlyOf(SortSpans(tables + p.spans), p.spans) == p.spans
  {
    hide BindAll, SortLiterals, Bound, LiteralValue, IsChain, Sliced, AreApart, SortSpans, Solid, Corresponds;
    var p := BindAll(SortLiterals(literals), placeholder).value;
    ParametersCorrespond(SortLiterals(literals), placeholder);
    SpansAreChain(sql, tables, literals, placeholder);
    var all := tables + p.spans;
    SlicedAreApart(sql, tables, p.spans);
    SortIsChain(all, |sql|);
    SortedIsSolid(all, |sql|);
    OnlyIsChain(SortSpans(all), p.spans, |sql|);
    forall s ensures s in SortSpans(all) <==> s in all {
      assert s in SortSpans(all) <==> s in multiset(all);
    }
    ChainIsUnique(OnlyOf(SortSpans(all), p.spans), p.spans, |sql|);
  }

  lemma SlicedAreApart(sql: string, tables: seq<Span>, spans: seq<Span>)
    requires Sliced(sql, tables, spans)
    ensures AreApart(tables + spans, |sql|)
  {
  }

  lemma SortedIsSolid(spans: seq<Span>, length: nat)
    requires AreApart(spans, length) && multiset(SortSpans(spans)) == multiset(spans)
    ensures Solid(SortSpans(spans))
  {
    hide SortSpans;
    forall i | 0 <= i < |SortSpans(spans)| ensures SortSpans(spans)[i].start < SortSpans(spans)[i].stop {
      assert SortSpans(spans)[i] in multiset(spans);
    }
  }

  datatype Query = Query(sql: string, parameters: seq<Value>)

  function Canonical(sql: string, tables: seq<Span>, literals: seq<Literal>,
                     placeholder: nat -> string): Result<Query> {
    match BindAll(SortLiterals(literals), placeholder)
    case Err(code) => Err(code)
    case Ok(p) => Ok(Query(Strip(Rebuild(sql, SortSpans(tables + p.spans), 0)), p.values))
  }

  /** The canonical query and its parameters. */
  method Canonicalize(sql: string, tables: seq<Span>, literals: seq<Literal>, placeholder: nat -> string)
    returns (r: Result<Query>)
    requires BindAll(SortLiterals(literals), placeholder).Ok? ==>
               Sliced(sql, tables, BindAll(SortLiterals(literals), placeholder).value.spans)
    ensures r == Canonical(sql, tables, literals, placeholder)
  {
    hide BindAll, SortLiterals, IsChain, Sliced, AreApart, SortSpans, Strip, Rebuild;
    var parameters := ParameterizeLiterals(literals, placeholder);
    match parameters {
      case Err(code) => return Err(code);
      case Ok(p) =>
        SlicedAreApart(sql, tables, p.spans);
        SortIsChain(tables + p.spans, |sql|);
        var canonical := SpliceAll(sql, SortSpans(tables + p.spans));
        return Ok(Query(Strip(canonical), p.values));
    }
  }

  // ----- Numbers -------------------------------------------------------------------------

  /** A whole number is bound as its value, with its sign. */
  lemma IntegerIsRead(n: nat, negative: bool)
    ensures LiteralValue((if negative then "-" else "") + Decimal(n))
         == Ok(Integer(if negative then -(n as int) else n))
  {
    hide Decimal, DecimalValue, Strip, Undouble;
    var s := Decimal(n);
    var raw := (if negative then "-" else "") + s;
    DecimalRoundTrip(n);
    assert IsDigit(s[0]) && IsDigit(s[|s| - 1]);
    assert raw[|raw| - 1] == s[|s| - 1];
    assert !negative ==> raw == s;
    assert negative ==> raw[1..] == s;
    StripKeeps(raw);
  }

  lemma {:induction false} DigitPrefixOf(s: string, t: string)
    requires forall i :: 0 <= i < |s| ==> IsDigit(s[i])
    requires t == "" || !IsDigit(t[0])
    ensures DigitPrefix(s + t) == |s|
  {
    if s == "" {
      assert s + t == t;
    } else {
      assert (s + t)[1..] == s[1..] + t;
      DigitPrefixOf(s[1..], t);
    }
  }

  predicate AllDigits(s: string) {
    forall i :: 0 <= i < |s| ==> IsDigit(s[i])
  }

  lemma FractionParts(whole: string, part: string, exponent: string)
    requires AllDigits(whole) && AllDigits(part) && whole + part != ""
    requires exponent == "" || ((exponent[0] == 'e' || exponent[0] == 'E') && IsNumber(Unsigned(exponent[1..])))
    ensures IsFraction(whole + ("." + (part + exponent)))
  {
    hide IsNumber, Unsigned;
    var s := whole + ("." + (part + exponent));
    DigitPrefixOf(whole, "." + (part + exponent));
    assert s[|whole|] == '.';
    assert s[|whole| + 1..] == part + exponent;
    DigitPrefixOf(part, exponent);
    assert (part + exponent)[|part|..] == exponent;
  }

  predicate IsSign(s: string) {
    s == "" || s == "+" || s == "-"
  }

  /** Nothing, or a mark, a sign or none, and digits. */
  predicate IsPower(mark: string, sign: string, digits: string) {
    || (mark == "" && sign == "" && digits == "")
    || ((mark == "e" || mark == "E") && IsSign(sign) && AllDigits(digits) && digits != "")
  }

  lemma PowerIsExponent(mark: string, sign: string, digits: string)
    requires IsPower(mark, sign, digits) && mark != ""
    ensures var exponent := mark + (sign + digits);
            exponent != "" && (exponent[0] == 'e' || exponent[0] == 'E') && IsNumber(Unsigned(exponent[1..]))
  {
    assert (mark + (sign + digits))[1..] == sign + digits;
    SignDropped(sign, digits);
  }

  lemma SignDropped(sign: string, s: string)
    requires IsSign(sign) && s != "" && s[0] != '+' && s[0] != '-'
    ensures Unsigned(sign + s) == s
  {
    assert sign == "" ==> sign + s == s;
    assert sign != "" ==> (sign + s)[1..] == s;
  }

  /** A number with a sign or none, a point, digits before or behind it and an exponent or none, is bound as it is
      written. */
  lemma FractionIsRead(sign: string, whole: string, part: string, mark: string, powerSign: string, power: string)
    requires IsSign(sign) && AllDigits(whole) && AllDigits(part) && whole + part != ""
    requires IsPower(mark, powerSign, power)
    ensures var s := sign + (whole + ("." + (part + (mark + (powerSign + power))))); LiteralValue(s) == Ok(Fraction(s))
  {
    hide Strip, Undouble, IsFraction, IsPower, Unsigned, IsNumber;
    var exponent := mark + (powerSign + power);
    var tail := "." + (part + exponent);
    var s := whole + tail;
    if mark != "" {
      PowerIsExponent(mark, powerSign, power);
    } else {
      NoPower(mark, powerSign, power);
    }
    FractionParts(whole, part, exponent);
    FractionEnds(whole, part, mark, powerSign, power);
    SignDropped(sign, s);
    assert s[|whole|] == '.';
    NoNumber(s, |whole|);
    assert (sign + s)[|sign + s| - 1] == s[|s| - 1];
    StripKeeps(sign + s);
  }

  lemma NoPower(mark: string, sign: string, digits: string)
    requires IsPower(mark, sign, digits) && mark == ""
    ensures mark + (sign + digits) == ""
  {
  }

  lemma NoNumber(s: string, i: nat)
    requires i < |s| && !IsDigit(s[i])
    ensures !IsNumber(s)
  {
  }

  /** Its first and its last character are digits or the point. */
  lemma FractionEnds(whole: string, part: string, mark: string, sign: string, digits: string)
    requires AllDigits(whole) && AllDigits(part) && IsPower(mark, sign, digits)
    ensures var s := whole + ("." + (part + (mark + (sign + digits))));
            && (IsDigit(s[0]) || s[0] == '.')
            && (IsDigit(s[|s| - 1]) || s[|s| - 1] == '.')
  {
    var s := whole + ("." + (part + (mark + (sign + digits))));
    assert s[0] == (if whole != "" then whole[0] else '.');
    if mark != "" {
      assert s[|s| - 1] == digits[|digits| - 1];
    } else {
      assert part + (mark + (sign + digits)) == part;
      assert s[|s| - 1] == (if part != "" then part[|part| - 1] else '.');
    }
  }

  /** What holds neither a digit nor a quote is refused. */
  lemma WordIsRefused(raw: string)
    requires forall i :: 0 <= i < |raw| ==> !IsDigit(raw[i]) && raw[i] != '\''
    ensures LiteralValue(raw) == Err(LITERAL_INVALID)
  {
    hide Strip, Undouble;
    StripIsInside(raw);
    NoDigits(Unsigned(Strip(raw)));
  }

  lemma StripIsInside(s: string)
    ensures forall i :: 0 <= i < |Strip(s)| ==> Strip(s)[i] in s
  {
    StripLeftInside(s);
    StripRightInside(StripLeft(s));
  }

  lemma {:induction false} StripLeftInside(s: string)
    ensures forall i :: 0 <= i < |StripLeft(s)| ==> StripLeft(s)[i] in s
  {
    if s != "" && IsSpace(s[0]) {
      StripLeftInside(s[1..]);
    }
  }

  lemma {:induction false} StripRightInside(s: string)
    ensures forall i :: 0 <= i < |StripRight(s)| ==> StripRight(s)[i] in s
  {
    if s != "" && IsSpace(s[|s| - 1]) {
      StripRightInside(s[..|s| - 1]);
    }
  }

  lemma NoDigits(s: string)
    requires forall i :: 0 <= i < |s| ==> !IsDigit(s[i])
    ensures !IsNumber(s) && !IsFraction(s)
  {
    if s != "" {
      assert !IsDigit(s[0]);
      if s[0] == '.' && |s| > 1 {
        assert !IsDigit(s[1..][0]);
      }
    }
  }

  // ----- When the literals can be bound --------------------------------------------------

  predicate CanBind(l: Literal) {
    && l.slice.Some?
    && (if l.structural then IsNumber(Strip(l.raw)) else LiteralValue(l.raw).Ok?)
  }

  /** The literals of a query are bound exactly when each has its slice, the structural ones are plain numbers and
      the others have values. */
  lemma {:induction false} BoundExactly(literals: seq<Literal>, placeholder: nat -> string)
    ensures BindAll(literals, placeholder).Ok? <==> forall i :: 0 <= i < |literals| ==> CanBind(literals[i])
  {
    hide IsNumber, Strip, LiteralValue;
    if literals != [] {
      BoundExactly(literals[..|literals| - 1], placeholder);
    }
  }
}
