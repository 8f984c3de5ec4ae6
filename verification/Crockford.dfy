/** The base-32 form of a digest, used to name aliases. */
module Crockford {
  import opened Text

  type Digest = s: seq<Byte> | |s| == 32 witness seq(32, _ => 0)

  const ALPHABET := "0123456789abcdefghjkmnpqrstvwxyz"

  /** A character's place in the alphabet, which leaves out i, l, o and u. */
  function Rank(c: char): (r: nat)
    ensures r < 32
  {
    if '0' <= c <= '9' then (c - '0') as nat
    else if 'a' <= c <= 'h' then (c - 'a') as nat + 10
    else if 'j' <= c <= 'k' then (c - 'j') as nat + 18
    else if 'm' <= c <= 'n' then (c - 'm') as nat + 20
    else if 'p' <= c <= 't' then (c - 'p') as nat + 22
    else if 'v' <= c <= 'z' then (c - 'v') as nat + 27
    else 0
  }

  lemma RankOf(k: nat)
    requires k < 32
    ensures Rank(ALPHABET[k]) == k && ALPHABET[k] != '@'
  {
    if k < 16 {
      RankLow(k);
    } else {
      RankHigh(k);
    }
  }

  lemma RankLow(k: nat)
    requires k < 16
    ensures Rank(ALPHABET[k]) == k && ALPHABET[k] != '@'
  {
    assert k < 8 || k == 8 || k == 9 || k == 10 || k == 11 || k == 12 || k == 13 || k == 14 || k == 15;
  }

  lemma RankHigh(k: nat)
    requires 16 <= k < 32
    ensures Rank(ALPHABET[k]) == k && ALPHABET[k] != '@'
  {
    assert k < 24 || k == 24 || k == 25 || k == 26 || k == 27 || k == 28 || k == 29 || k == 30 || k == 31;
  }

  // ----- Numbers -------------------------------------------------------------------------

  /** The bytes as one big-endian number. */
  function FromBytes(data: seq<Byte>): nat {
    if data == [] then 0 else FromBytes(data[..|data| - 1]) * 256 + data[|data| - 1]
  }

  /** Base-32 digits, the most significant first; none for zero. */
  function Digits(n: nat): (r: string)
  {
    if n == 0 then "" else Digits(n / 32) + [ALPHABET[n % 32]]
  }

  function Zeros(n: nat): (r: string)
    ensures |r| == n
  {
    seq(n, _ => '0')
  }

  /** `rjust(width, "0")`. */
  function Padded(s: string, width: nat): string {
    if |s| < width then Zeros(width - |s|) + s else s
  }

  function Encode(data: seq<Byte>): string {
    var n := FromBytes(data);
    Padded(if n == 0 then "0" else Digits(n), 52)
  }

  function Reversed(s: string): (r: string)
    ensures |r| == |s|
  {
    if s == "" then "" else Reversed(s[1..]) + [s[0]]
  }

  lemma ReversedAppend(s: string, c: char)
    ensures Reversed(s + [c]) == [c] + Reversed(s)
  {
    if s != "" {
      assert (s + [c])[1..] == s[1..] + [c];
      ReversedAppend(s[1..], c);
    }
  }

  /** Repeated division, lowest digit first, then reversed and padded. */
  method EncodeBytes(data: seq<Byte>) returns (r: string)
    ensures r == Encode(data)
  {
    hide Digits, Reversed, FromBytes, Padded;
    DigitsOfNothing();
    var value := FromBytes(data);
    var chars := "";
    while value != 0
      invariant Digits(FromBytes(data)) == Digits(value) + Reversed(chars)
    {
      ghost var was := value;
      ghost var before := chars;
      DigitsNext(was);
      var remainder := value % 32;
      value := value / 32;
      chars := chars + [ALPHABET[remainder]];
      ReversedAppend(before, ALPHABET[remainder]);
      assert Digits(was) + Reversed(before) == Digits(value) + ([ALPHABET[remainder]] + Reversed(before));
    }
    assert "" + Reversed(chars) == Reversed(chars);
    DigitsNonempty(FromBytes(data));
    r := Padded(if Reversed(chars) == "" then "0" else Reversed(chars), 52);
  }

  lemma DigitsNext(n: nat)
    requires n > 0
    ensures Digits(n) == Digits(n / 32) + [ALPHABET[n % 32]]
  {
  }

  lemma DigitsOfNothing()
    ensures Digits(0) == "" && Reversed("") == ""
  {
  }

  lemma DigitsNonempty(n: nat)
    ensures n != 0 ==> Digits(n) != ""
  {
  }

  // ----- Length --------------------------------------------------------------------------

  function Power(base: nat, n: nat): nat {
    if n == 0 then 1 else base * Power(base, n - 1)
  }

  lemma {:induction false} BytesBound(data: seq<Byte>)
    ensures FromBytes(data) < Power(256, |data|)
  {
    if data != [] {
      BytesBound(data[..|data| - 1]);
    }
  }

  lemma {:induction false} DigitsBound(n: nat, k: nat)
    requires n < Power(32, k)
    ensures |Digits(n)| <= k
  {
    if n != 0 {
      DigitsBound(n / 32, k - 1);
    }
  }

  /** Five bytes are eight base-32 digits. */
  lemma {:induction false} FiveAreEight(m: nat)
    ensures Power(256, 5 * m) == Power(32, 8 * m)
  {
    if m > 0 {
      FiveAreEight(m - 1);
      FiveBytes(5 * m - 5);
      EightDigits(8 * m - 8);
    }
  }

  lemma FiveBytes(n: nat)
    ensures Power(256, n + 5) == 1099511627776 * Power(256, n)
  {
    assert Power(256, n + 2) == 256 * Power(256, n + 1);
    assert Power(256, n + 4) == 256 * Power(256, n + 3);
    assert Power(256, n + 3) == 256 * Power(256, n + 2);
  }

  lemma EightDigits(n: nat)
    ensures Power(32, n + 8) == 1099511627776 * Power(32, n)
  {
    assert Power(32, n + 2) == 32 * Power(32, n + 1);
    assert Power(32, n + 3) == 32 * Power(32, n + 2);
    assert Power(32, n + 4) == 32 * Power(32, n + 3);
    assert Power(32, n + 5) == 32 * Power(32, n + 4);
    assert Power(32, n + 6) == 32 * Power(32, n + 5);
    assert Power(32, n + 7) == 32 * Power(32, n + 6);
  }

  lemma DigestBound()
    ensures Power(256, 32) < Power(32, 52)
  {
    FiveAreEight(6);
    assert Power(256, 32) == 256 * Power(256, 31);
    assert Power(256, 31) == 256 * Power(256, 30);
    assert Power(32, 52) == 32 * Power(32, 51);
    assert Power(32, 51) == 32 * Power(32, 50);
    assert Power(32, 50) == 32 * Power(32, 49);
    assert Power(32, 49) == 32 * Power(32, 48);
    PowerPositive(48);
  }

  lemma {:induction false} PowerPositive(n: nat)
    ensures Power(32, n) > 0
  {
    if n > 0 {
      PowerPositive(n - 1);
    }
  }

  // ----- Injectivity ---------------------------------------------------------------------

  function ValueOf(s: string): nat {
    if s == "" then 0 else ValueOf(s[..|s| - 1]) * 32 + Rank(s[|s| - 1])
  }

  lemma {:induction false} DigitsRoundTrip(n: nat)
    ensures ValueOf(Digits(n)) == n
  {
    if n != 0 {
      DigitsRoundTrip(n / 32);
      RankOf(n % 32);
      assert Digits(n)[..|Digits(n)| - 1] == Digits(n / 32);
    }
  }

  lemma {:induction false} ZerosAddNothing(k: nat, s: string)
    ensures ValueOf(Zeros(k) + s) == ValueOf(s)
  {
    if s == "" {
      assert Zeros(k) + s == Zeros(k);
      if k > 0 {
        ZerosAddNothing(k - 1, "");
        assert Zeros(k)[..k - 1] == Zeros(k - 1) + "";
      }
    } else {
      var init := s[..|s| - 1];
      ZerosAddNothing(k, init);
      assert (Zeros(k) + s)[..k + |s| - 1] == Zeros(k) + init;
    }
  }

  lemma {:induction false} BytesAreInjective(a: seq<Byte>, b: seq<Byte>)
    requires |a| == |b| && FromBytes(a) == FromBytes(b)
    ensures a == b
  {
    if a != [] {
      var n := |a| - 1;
      SameQuotient(FromBytes(a[..n]), a[n], FromBytes(b[..n]), b[n]);
      BytesAreInjective(a[..n], b[..n]);
      assert a == a[..n] + [a[n]] && b == b[..n] + [b[n]];
    }
  }

  lemma SameQuotient(p: nat, x: Byte, q: nat, y: Byte)
    requires p * 256 + x == q * 256 + y
    ensures p == q && x == y
  {
  }

  lemma EncodeValue(data: seq<Byte>)
    ensures ValueOf(Encode(data)) == FromBytes(data)
  {
    hide FromBytes, Digits, ValueOf, Zeros;
    var n := FromBytes(data);
    var s := if n == 0 then "0" else Digits(n);
    ZeroDigit();
    DigitsRoundTrip(n);
    if |s| < 52 {
      ZerosAddNothing(52 - |s|, s);
    }
  }

  lemma ZeroDigit()
    ensures ValueOf("0") == 0
  {
  }

  /** Every digest has a form of 52 characters of its own. */
  lemma EncodeIsInjective(a: Digest, b: Digest)
    ensures |Encode(a)| == 52
    ensures Encode(a) == Encode(b) ==> a == b
  {
    hide Power, Digits, ValueOf, FromBytes;
    BytesBound(a);
    DigestBound();
    DigitsBound(FromBytes(a), 52);
    EncodeValue(a);
    EncodeValue(b);
    if Encode(a) == Encode(b) {
      BytesAreInjective(a, b);
    }
  }

  predicate NoAt(s: string) {
    forall i :: 0 <= i < |s| ==> s[i] != '@'
  }

  lemma {:induction false} DigitsHaveNoAt(n: nat)
    ensures NoAt(Digits(n))
  {
    if n != 0 {
      DigitsHaveNoAt(n / 32);
      RankOf(n % 32);
    }
  }

  lemma EncodeHasNoAt(data: seq<Byte>)
    ensures NoAt(Encode(data))
  {
    hide Digits;
    DigitsHaveNoAt(FromBytes(data));
  }
}
