/** Fake digit strings: the same shape as the original, fresh digits, and a valid check digit for
    thirteen-digit identifiers. */
module DigitFakes {
  import opened Text
  import opened Json
  import opened Crockford

  const REDACTED := "[REDACTED]"

  // ----- Fresh digits --------------------------------------------------------------------

  predicate AllDigits(s: string) {
    forall i :: 0 <= i < |s| ==> IsDigit(s[i])
  }

  /** Decimal forms of a digest, of its digest, and so on, until there are enough digits. */
  function Grow(digits: string, seed: Digest, rehash: Digest -> Digest, count: nat): (r: string)
    requires AllDigits(digits)
    ensures AllDigits(r) && |r| >= count
    decreases count - |digits|
  {
    if |digits| >= count then digits
    else Grow(digits + Decimal(FromBytes(seed)), rehash(seed), rehash, count)
  }

  /** The last `count` of them. */
  function FreshDigits(seed: Digest, rehash: Digest -> Digest, count: nat): (r: string)
    ensures |r| == count && AllDigits(r)
  {
    var grown := Grow("", seed, rehash, count);
    grown[|grown| - count..]
  }

  method GrowDigits(start: Digest, rehash: Digest -> Digest, count: nat) returns (r: string)
    ensures r == FreshDigits(start, rehash, count)
    ensures |r| == count && AllDigits(r)
  {
    var digits, seed := "", start;
    while |digits| < count
      invariant AllDigits(digits)
      invariant Grow("", start, rehash, count) == Grow(digits, seed, rehash, count)
      decreases count - |digits|
    {
      digits := digits + Decimal(FromBytes(seed));
      seed := rehash(seed);
    }
    return digits[|digits| - count..];
  }

  // ----- Check digit ---------------------------------------------------------------------

  /** Each digit times thirteen less its place. */
  function Total(digits: string): nat
    requires AllDigits(digits) && |digits| <= 13
  {
    if digits == "" then 0
    else Total(digits[..|digits| - 1]) + DigitValue(digits[|digits| - 1]) * (13 - (|digits| - 1))
  }

  function CheckDigit(twelve: string): (r: nat)
    requires AllDigits(twelve) && |twelve| == 12
    ensures r < 10
  {
    (11 - Total(twelve) % 11) % 10
  }

  method ThaiIdCheckDigit(twelve: string) returns (r: nat)
    requires AllDigits(twelve) && |twelve| == 12
    ensures r == CheckDigit(twelve)
  {
    var total := 0;
    for i := 0 to 12
      invariant total == Total(twelve[..i])
    {
      assert twelve[..i + 1][..i] == twelve[..i];
      total := total + DigitValue(twelve[i]) * (13 - i);
    }
    assert twelve[..12] == twelve;
    return (11 - total % 11) % 10;
  }

  predicate IsThaiId(digits: string) {
    AllDigits(digits) && |digits| == 13 && DigitValue(digits[12]) == CheckDigit(digits[..12])
  }

  /** The two remainders that have the same check digit. */
  predicate Shared(r: nat, s: nat) {
    (r == 0 && s == 10) || (r == 10 && s == 0)
  }

  /** Two prefixes have the same check digit exactly when their totals agree modulo 11, or leave 0
      and 10. */
  lemma SameCheckDigit(a: string, b: string)
    requires AllDigits(a) && AllDigits(b) && |a| == 12 && |b| == 12
    ensures CheckDigit(a) == CheckDigit(b) <==>
            Total(a) % 11 == Total(b) % 11 || Shared(Total(a) % 11, Total(b) % 11)
  {
    hide Total;
  }

  predicate DifferOnlyAt(a: string, b: string, k: nat) {
    && |a| == |b| && k < |a| && a[k] != b[k]
    && forall i :: 0 <= i < |a| && i != k ==> a[i] == b[i]
  }

  lemma {:induction false} TotalsDiffer(a: string, b: string, k: nat)
    requires AllDigits(a) && AllDigits(b) && |a| <= 12 && DifferOnlyAt(a, b, k)
    ensures Total(a) - Total(b) == (DigitValue(a[k]) - DigitValue(b[k])) * (13 - k)
  {
    var n := |a| - 1;
    if k == n {
      assert a[..n] == b[..n];
      Distribute(DigitValue(a[n]), DigitValue(b[n]), 13 - n);
    } else {
      TotalsDiffer(a[..n], b[..n], k);
    }
  }

  lemma Distribute(x: int, y: int, z: int)
    ensures x * z - y * z == (x - y) * z
  {
  }

  lemma DigitValuesDiffer(c: char, d: char)
    requires IsDigit(c) && IsDigit(d) && c != d
    ensures DigitValue(c) != DigitValue(d)
    ensures -9 <= DigitValue(c) - DigitValue(d) <= 9
  {
  }

  /** A multiple of a small weight is divisible by 11 only at the third place. */
  lemma WeightsTell(delta: int, k: nat)
    requires k < 12 && delta != 0 && -9 <= delta <= 9
    ensures delta * (13 - k) % 11 == 0 <==> k == 2
  {
    if k == 0 {
      assert delta * 13 == delta * 11 + delta * 2;
    } else if k == 1 {
      assert delta * 12 == delta * 11 + delta;
    } else if k == 2 {
      assert delta * 11 % 11 == 0;
    } else {
      SmallWeights(delta, 13 - k);
    }
  }

  lemma SmallWeights(delta: int, w: nat)
    requires 2 <= w <= 10 && delta != 0 && -9 <= delta <= 9
    ensures delta * w % 11 != 0
  {
    if w <= 4 {
      assert w == 2 || w == 3 || w == 4;
    } else if w <= 7 {
      assert w == 5 || w == 6 || w == 7;
    } else {
      assert w == 8 || w == 9 || w == 10;
    }
  }

  lemma SameRemainder(x: nat, y: nat)
    ensures x % 11 == y % 11 <==> (x as int - y) % 11 == 0
  {
  }

  /** One wrong digit goes unnoticed exactly at the third place, or when the totals leave 0 and 10. */
  lemma OneDigitErrors(a: string, b: string, k: nat)
    requires AllDigits(a) && AllDigits(b) && |a| == 12 && DifferOnlyAt(a, b, k)
    ensures CheckDigit(a) == CheckDigit(b) <==> k == 2 || Shared(Total(a) % 11, Total(b) % 11)
  {
    hide Total, CheckDigit;
    var delta := DigitValue(a[k]) - DigitValue(b[k]);
    TotalsDiffer(a, b, k);
    DigitValuesDiffer(a[k], b[k]);
    WeightsTell(delta, k);
    SameRemainder(Total(a), Total(b));
    SameCheckDigit(a, b);
  }

  function Swapped(a: string, k: nat): string
    requires k + 1 < |a|
  {
    a[k := a[k + 1]][k + 1 := a[k]]
  }

  /** Two neighbours exchanged go unnoticed only when the totals leave 0 and 10. */
  lemma SwappedDigits(a: string, k: nat)
    requires AllDigits(a) && |a| == 12 && k + 1 < 12 && a[k] != a[k + 1]
    ensures AllDigits(Swapped(a, k))
    ensures CheckDigit(a) == CheckDigit(Swapped(a, k)) <==> Shared(Total(a) % 11, Total(Swapped(a, k)) % 11)
  {
    hide Total, CheckDigit;
    var c, b := a[k := a[k + 1]], Swapped(a, k);
    var delta := DigitValue(a[k]) - DigitValue(a[k + 1]);
    TotalsDiffer(a, c, k);
    TotalsDiffer(c, b, k + 1);
    DigitValuesDiffer(a[k], a[k + 1]);
    assert delta * (13 - k) + -delta * (12 - k) == delta by {
      Distribute(13 - k, 12 - k, delta);
    }
    SameRemainder(Total(a), Total(b));
    SameCheckDigit(a, b);
  }

  // ----- Fakes ---------------------------------------------------------------------------

  /** Where the digits stand. */
  function Positions(raw: string, isDigit: char -> bool): (r: seq<nat>)
    ensures forall k :: 0 <= k < |r| ==> r[k] < |raw| && isDigit(raw[r[k]])
    ensures forall j, k :: 0 <= j < k < |r| ==> r[j] < r[k]
    ensures forall i :: 0 <= i < |raw| && isDigit(raw[i]) ==> i in r
  {
    if raw == "" then [] else
    var n := |raw| - 1;
    Positions(raw[..n], isDigit) + (if isDigit(raw[n]) then [n] else [])
  }

  /** The characters at the given places. */
  function At(s: string, positions: seq<nat>): (r: string)
    requires forall k :: 0 <= k < |positions| ==> positions[k] < |s|
    ensures |r| == |positions|
  {
    seq(|positions|, k requires 0 <= k < |positions| => s[positions[k]])
  }

  /** The same text with these digits. */
  predicate IsRewritten(raw: string, isDigit: char -> bool, r: string, digits: string) {
    && |r| == |raw|
    && (forall i :: 0 <= i < |raw| && !isDigit(raw[i]) ==> r[i] == raw[i])
    && At(r, Positions(raw, isDigit)) == digits
  }

  lemma RewrittenIs(raw: string, isDigit: char -> bool, r: string, digits: string)
    requires |digits| == |Positions(raw, isDigit)| && |r| == |raw|
    requires forall k :: 0 <= k < |digits| ==> r[Positions(raw, isDigit)[k]] == digits[k]
    requires forall i :: 0 <= i < |raw| && i !in Positions(raw, isDigit) ==> r[i] == raw[i]
    ensures IsRewritten(raw, isDigit, r, digits)
  {
    hide Positions;
  }

  method Rewrite(raw: string, isDigit: char -> bool, digits: string) returns (r: string)
    requires |digits| == |Positions(raw, isDigit)|
    ensures IsRewritten(raw, isDigit, r, digits)
  {
    hide Positions, IsRewritten;
    var positions := Positions(raw, isDigit);
    var chars := new char[|raw|](i requires 0 <= i < |raw| => raw[i]);
    for k := 0 to |positions|
      invariant forall j :: 0 <= j < k ==> chars[positions[j]] == digits[j]
      invariant forall i :: 0 <= i < |raw| && i !in positions ==> chars[i] == raw[i]
    {
      chars[positions[k]] := digits[k];
    }
    r := chars[..];
    RewrittenIs(raw, isDigit, r, digits);
  }

  /** A fake keeps the shape, starts its digits with 0 and takes the rest from the seed; a text
      without digits is redacted. */
  method FakeDigits(raw: string, isDigit: char -> bool, seed: Digest, rehash: Digest -> Digest) returns (r: string)
    ensures var count := |Positions(raw, isDigit)|;
            if count == 0 then r == REDACTED
            else IsRewritten(raw, isDigit, r, "0" + FreshDigits(seed, rehash, count - 1))
  {
    hide IsRewritten, FreshDigits, AllDigits;
    var positions := Positions(raw, isDigit);
    if positions == [] {
      return REDACTED;
    }
    var tail := GrowDigits(seed, rehash, |positions| - 1);
    r := Rewrite(raw, isDigit, "0" + tail);
  }

  /** A thirteen-digit fake is a valid identifier; any other count is faked as plain digits. */
  method FakeThaiId(raw: string, isDigit: char -> bool, seed: Digest, rehash: Digest -> Digest) returns (r: string)
    ensures var count := |Positions(raw, isDigit)|;
            if count == 0 then r == REDACTED
            else if count == 13 then
              exists digits :: IsRewritten(raw, isDigit, r, digits) && IsThaiId(digits)
                           && digits[..12] == "0" + FreshDigits(seed, rehash, 11)
            else IsRewritten(raw, isDigit, r, "0" + FreshDigits(seed, rehash, count - 1))
  {
    hide IsRewritten, FreshDigits, Total;
    if |Positions(raw, isDigit)| != 13 {
      r := FakeDigits(raw, isDigit, seed, rehash);
      return;
    }
    var tail := GrowDigits(seed, rehash, 11);
    var twelve := "0" + tail;
    var check := ThaiIdCheckDigit(twelve);
    var digits := twelve + [DigitChar(check)];
    assert digits[..12] == twelve;
    DigitOf(check);
    r := Rewrite(raw, isDigit, digits);
  }

  lemma DigitOf(n: nat)
    requires n < 10
    ensures IsDigit(DigitChar(n)) && DigitValue(DigitChar(n)) == n
  {
  }
}
