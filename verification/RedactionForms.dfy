/** What the redaction of definitions hides, written out: assigned secrets, bearer tokens and private keys. */
module RedactionForms {
  import opened Text
  import opened Declarations
  import opened RoutineIdentity
  import opened SecretRedaction
  import Json

  // ----- Assigned secrets ----------------------------------------------------------------

  const KEYWORDS := ["PASSWORD", "PASSWD", "PWD", "SECRET", "API_KEY", "API-KEY", "APIKEY", "TOKEN"]

  /** A keyword in any case, `=` with any blanks around it, and a text in quotes on one line. */
  datatype Secret = Secret(keyword: string, before: string, after: string, quote: char, inner: string) {
    predicate Valid() {
      && (exists k :: 0 <= k < 8 && Upper(keyword) == KEYWORDS[k])
      && AllSpace(before) && AllSpace(after)
      && (quote == '\'' || quote == '"')
      && inner != MARK
      && forall i :: 0 <= i < |inner| ==> inner[i] != quote && inner[i] != '\n'
    }

    function Quoted(t: string): string {
      [quote] + (inner + ([quote] + t))
    }

    function Then(t: string): string {
      keyword + (before + ("=" + (after + Quoted(t))))
    }
  }

  lemma UpperAt(s: string, keyword: string, t: string)
    requires Upper(s) == keyword
    ensures KeywordAt(s + t, keyword)
  {
    assert forall i :: 0 <= i < |s| ==> Upper(s)[i] == UpperChar(s[i]);
  }

  lemma OtherLetter(s: string, keyword: string, other: string, t: string, i: nat)
    requires Upper(s) == keyword && i < |keyword| && i < |other| && keyword[i] != other[i]
    ensures !KeywordAt(s + t, other)
  {
    assert Upper(s)[i] == UpperChar(s[i]) && (s + t)[i] == s[i];
  }

  lemma KeywordIsRead(s: string, k: nat, t: string)
    requires k < 8 && Upper(s) == KEYWORDS[k]
    ensures KeywordEnd(s + t) == Some(|s|)
  {
    hide KeywordAt, Upper;
    var keyword := KEYWORDS[k];
    UpperAt(s, keyword, t);
    if k == 1 {
      OtherLetter(s, keyword, "PASSWORD", t, 5);
    } else if k == 2 {
      OtherLetter(s, keyword, "PASSWORD", t, 1);
      OtherLetter(s, keyword, "PASSWD", t, 1);
    } else if k == 3 {
      NotPassword(s, keyword, t);
    } else if k == 7 {
      NotPassword(s, keyword, t);
      OtherLetter(s, keyword, "SECRET", t, 0);
      OtherLetter(s, keyword, "API", t, 0);
    } else if 4 <= k <= 6 {
      NotPassword(s, keyword, t);
      OtherLetter(s, keyword, "SECRET", t, 0);
      ApiKeyIsRead(s, keyword, t);
    }
  }

  lemma NotPassword(s: string, keyword: string, t: string)
    requires Upper(s) == keyword && |keyword| >= 3 && keyword[0] != 'P'
    ensures !KeywordAt(s + t, "PASSWORD") && !KeywordAt(s + t, "PASSWD") && !KeywordAt(s + t, "PWD")
  {
    hide KeywordAt, Upper;
    OtherLetter(s, keyword, "PASSWORD", t, 0);
    OtherLetter(s, keyword, "PASSWD", t, 0);
    OtherLetter(s, keyword, "PWD", t, 0);
  }

  lemma ApiKeyIsRead(s: string, keyword: string, t: string)
    requires Upper(s) == keyword && (keyword == "API_KEY" || keyword == "API-KEY" || keyword == "APIKEY")
    ensures var n := if |s| == 6 then 3 else 4;
            && KeywordAt(s + t, "API") && KeywordAt((s + t)[n..], "KEY")
            && ((s + t)[3] == '_' || (s + t)[3] == '-' <==> n == 4)
  {
    assert forall i :: 0 <= i < |s| ==> Upper(s)[i] == UpperChar(s[i]) && (s + t)[i] == s[i];
    assert s[3] == '_' || s[3] == '-' || UpperChar(s[3]) == 'K';
  }

  lemma {:induction false} Closes(inner: string, quote: char, t: string)
    requires quote != '\n' && forall i :: 0 <= i < |inner| ==> inner[i] != quote && inner[i] != '\n'
    ensures CloseEnd(inner + ([quote] + t), quote) == Some(|inner| + 1)
  {
    var s := inner + ([quote] + t);
    if inner == "" {
      assert s == [quote] + t;
    } else {
      Closes(inner[1..], quote, t);
      assert s[1..] == inner[1..] + ([quote] + t);
    }
  }

  lemma MarkIsAll(inner: string, quote: char, t: string)
    requires quote == '\'' || quote == '"'
    requires forall i :: 0 <= i < |inner| ==> inner[i] != quote
    requires Json.Starts(inner + ([quote] + t), MARK + [quote])
    ensures inner == MARK
  {
    var s := inner + ([quote] + t);
    var m := MARK + [quote];
    assert forall i :: 0 <= i < 11 ==> s[i] == s[..11][i] == m[i];
    assert s[|inner|] == quote && s[10] == quote;
    assert forall i :: 0 <= i < 10 ==> m[i] != quote;
    assert |inner| == 10;
    assert forall i :: 0 <= i < 10 ==> inner[i] == s[i] == MARK[i];
  }

  /** The pieces that the pattern reads one after the other. */
  lemma SecretPieces(s: string, k: nat, g: nat, h: nat, n: nat)
    requires k + g + 1 + h < |s| && KeywordEnd(s) == Some(k)
    requires SpaceRun(s[k..]) == g && s[k + g] == '=' && SpaceRun(s[k + g + 1..]) == h
    requires var b := k + g + 1 + h;
             && (s[b] == '\'' || s[b] == '"') && !Json.Starts(s[b + 1..], MARK + [s[b]])
             && CloseEnd(s[b + 1..], s[b]) == Some(n)
    ensures SecretAt(s) == Some(Assignment(k + g + 1 + h + 1 + n, k))
  {
    hide KeywordEnd, CloseEnd, SpaceRun, Json.Starts;
  }

  lemma SecretParts(a: Secret, t: string)
    ensures var s := a.Then(t); var k := |a.keyword|; var b := k + |a.before| + 1 + |a.after|;
            && |s| == b + 1 + |a.inner| + 1 + |t| && |a.Then("")| == b + 1 + |a.inner| + 1
            && s == a.keyword + (a.before + ("=" + (a.after + a.Quoted(t))))
            && s[..k] == a.keyword
            && s[k..] == a.before + ("=" + (a.after + a.Quoted(t)))
            && s[k + |a.before|] == '=' && s[k + |a.before| + 1..] == a.after + a.Quoted(t)
            && s[b] == a.quote && s[b + 1..] == a.inner + ([a.quote] + t)
            && s[|a.Then("")|..] == t
  {
    var s := a.Then(t);
    var k := |a.keyword|;
    var tail := "=" + (a.after + a.Quoted(t));
    assert s[k..] == a.before + tail;
    var n := k + |a.before|;
    assert s[n..] == tail && tail[1..] == a.after + a.Quoted(t);
    assert s[n + 1..] == tail[1..];
    var b := n + 1 + |a.after|;
    assert s[b..] == a.Quoted(t);
    assert s[b + 1..] == a.Quoted(t)[1..] == a.inner + ([a.quote] + t);
    assert s[|a.Then("")|..] == t;
  }

  /** What each piece reads. */
  lemma SecretReads(a: Secret, t: string)
    requires a.Valid()
    ensures KeywordEnd(a.keyword + (a.before + ("=" + (a.after + a.Quoted(t))))) == Some(|a.keyword|)
    ensures SpaceRun(a.before + ("=" + (a.after + a.Quoted(t)))) == |a.before|
    ensures SpaceRun(a.after + a.Quoted(t)) == |a.after|
    ensures CloseEnd(a.inner + ([a.quote] + t), a.quote) == Some(|a.inner| + 1)
    ensures !Json.Starts(a.inner + ([a.quote] + t), MARK + [a.quote])
  {
    hide KeywordEnd, CloseEnd, SpaceRun, AllSpace, Upper, Json.Starts;
    var k :| 0 <= k < 8 && Upper(a.keyword) == KEYWORDS[k];
    KeywordIsRead(a.keyword, k, a.before + ("=" + (a.after + a.Quoted(t))));
    SpaceRunOf(a.before, "=" + (a.after + a.Quoted(t)));
    SpaceRunOf(a.after, a.Quoted(t));
    Closes(a.inner, a.quote, t);
    if Json.Starts(a.inner + ([a.quote] + t), MARK + [a.quote]) {
      MarkIsAll(a.inner, a.quote, t);
    }
  }

  lemma SecretIsRead(a: Secret, t: string)
    requires a.Valid()
    ensures SecretAt(a.Then(t)) == Some(Assignment(|a.Then("")|, |a.keyword|))
    ensures a.Then(t)[..|a.keyword|] == a.keyword && a.Then(t)[|a.Then("")|..] == t
  {
    hide KeywordEnd, CloseEnd, SpaceRun, AllSpace, Upper, SecretAt, Json.Starts, Secret.Then, Secret.Quoted;
    SecretParts(a, t);
    SecretReads(a, t);
    SecretPieces(a.Then(t), |a.keyword|, |a.before|, |a.after|, |a.inner| + 1);
  }

  /** It is hidden wherever the first pass comes to it: its keyword stays, its text goes. */
  lemma SecretIsHidden(a: Secret, t: string)
    requires a.Valid()
    ensures HideSecrets(a.Then(t)) == a.keyword + "='[REDACTED]'" + HideSecrets(t)
  {
    hide SecretAt, Secret.Then, Secret.Valid;
    SecretIsRead(a, t);
  }

  // ----- Bearer tokens -------------------------------------------------------------------

  /** `bearer` in any case, blanks, and a token of letters, digits, `.`, `_`, `~` and `-`. */
  datatype Bearer = Bearer(word: string, gap: string, token: string) {
    predicate Valid() {
      && Upper(word) == "BEARER" && Gap(gap) && token != ""
      && forall i :: 0 <= i < |token| ==> InToken(token[i])
    }

    function Then(t: string): string {
      word + (gap + (token + t))
    }
  }

  predicate InToken(c: char) {
    || 'a' <= c <= 'z' || 'A' <= c <= 'Z' || '0' <= c <= '9'
    || c == '.' || c == '_' || c == '~' || c == '-'
  }

  lemma {:induction false} TokenIsRead(token: string, t: string)
    requires (forall i :: 0 <= i < |token| ==> InToken(token[i])) && (t == "" || !InToken(t[0]))
    ensures TokenRun(token + t) == |token|
  {
    if token == "" {
      assert token + t == t;
    } else {
      TokenIsRead(token[1..], t);
      assert (token + t)[1..] == token[1..] + t;
    }
  }

  lemma BearerIsRead(a: Bearer, t: string)
    requires a.Valid() && (t == "" || !InToken(t[0]))
    ensures BearerEnd(a.Then(t)) == Some(|a.Then("")|) && a.Then(t)[|a.Then("")|..] == t
  {
    hide TokenRun, SpaceRun, AllSpace, Upper, KeywordAt;
    var s := a.Then(t);
    UpperAt(a.word, "BEARER", a.gap + (a.token + t));
    assert !IsSpace(a.token[0]) by {
      assert InToken(a.token[0]);
    }
    SpaceRunOf(a.gap, a.token + t);
    TokenIsRead(a.token, t);
    assert s[6..] == a.gap + (a.token + t) && s[6 + |a.gap|..] == a.token + t;
  }

  lemma BearerIsHidden(a: Bearer, t: string)
    requires a.Valid() && (t == "" || !InToken(t[0]))
    ensures HideBearers(a.Then(t)) == "[REDACTED]" + HideBearers(t)
  {
    hide BearerEnd, Bearer.Then, Bearer.Valid;
    BearerIsRead(a, t);
  }

  // ----- Private keys --------------------------------------------------------------------

  /** A private key of any kind between its two markers, over any lines. */
  datatype PrivateKey = PrivateKey(kind: string, body: string, endKind: string) {
    predicate Valid() {
      && IsKeyKind(kind) && IsKeyKind(endKind)
      && forall i :: 0 <= i < |body| ==> body[i] != '-'
    }

    function Then(t: string): string {
      "-----BEGIN " + (kind + ("PRIVATE KEY-----" + (body + Footer(t))))
    }

    function Footer(t: string): string {
      "-----END " + (endKind + ("PRIVATE KEY-----" + t))
    }
  }

  predicate IsKeyKind(kind: string) {
    kind == "" || kind == "RSA " || kind == "EC " || kind == "OPENSSH "
  }

  lemma StartsWith(a: string, t: string)
    ensures Json.Starts(a + t, a)
  {
  }

  lemma StartsElse(s: string, a: string)
    requires s != "" && a != "" && s[0] != a[0]
    ensures !Json.Starts(s, a)
  {
  }

  lemma KeyNameIsRead(kind: string, t: string)
    requires IsKeyKind(kind)
    ensures KeyNameEnd(kind + ("PRIVATE KEY-----" + t)) == Some(|kind| + 16)
  {
    hide Json.Starts;
    var s := kind + ("PRIVATE KEY-----" + t);
    StartsWith(kind, "PRIVATE KEY-----" + t);
    StartsWith("PRIVATE KEY-----", t);
    assert s[|kind|..] == "PRIVATE KEY-----" + t;
    assert s[0] == (kind + "P")[0];
    if kind != "RSA " {
      StartsElse(s, "RSA ");
    }
    if kind != "EC " {
      StartsElse(s, "EC ");
    }
    if kind != "OPENSSH " {
      StartsElse(s, "OPENSSH ");
    }
  }

  lemma MarkerIsRead(verb: string, kind: string, t: string)
    requires IsKeyKind(kind)
    ensures MarkerEnd(verb + (kind + ("PRIVATE KEY-----" + t)), verb) == Some(|verb| + (|kind| + 16))
  {
    hide Json.Starts, KeyNameEnd;
    var rest := kind + ("PRIVATE KEY-----" + t);
    StartsWith(verb, rest);
    KeyNameIsRead(kind, t);
    assert (verb + rest)[|verb|..] == rest;
  }

  lemma {:induction false} FooterIsRead(body: string, endKind: string, t: string)
    requires IsKeyKind(endKind) && forall i :: 0 <= i < |body| ==> body[i] != '-'
    ensures FooterEnd(body + ("-----END " + (endKind + ("PRIVATE KEY-----" + t)))) == Some(|body| + (|endKind| + 25))
  {
    hide MarkerEnd;
    var footer := "-----END " + (endKind + ("PRIVATE KEY-----" + t));
    var s := body + footer;
    if body == "" {
      assert s == footer;
      MarkerIsRead("-----END ", endKind, t);
    } else {
      FooterIsRead(body[1..], endKind, t);
      assert s[1..] == body[1..] + footer;
      NoMarker(s, "-----END ");
    }
  }

  lemma NoMarker(s: string, verb: string)
    requires s != "" && verb != "" && s[0] != verb[0]
    ensures MarkerEnd(s, verb).None?
  {
    hide Json.Starts, KeyNameEnd;
    StartsElse(s, verb);
  }

  lemma KeyIsRead(a: PrivateKey, t: string)
    requires a.Valid()
    ensures KeyEnd(a.Then(t)) == Some(|a.Then("")|) && a.Then(t)[|a.Then("")|..] == t
  {
    hide MarkerEnd, FooterEnd, IsKeyKind;
    var s := a.Then(t);
    var rest := a.body + a.Footer(t);
    MarkerIsRead("-----BEGIN ", a.kind, rest);
    FooterIsRead(a.body, a.endKind, t);
    assert s[27 + |a.kind|..] == rest;
  }

  lemma KeyIsHidden(a: PrivateKey, t: string)
    requires a.Valid()
    ensures HideKeys(a.Then(t)) == "[REDACTED]" + HideKeys(t)
  {
    hide KeyEnd, PrivateKey.Then, PrivateKey.Valid;
    KeyIsRead(a, t);
  }

  // ----- No definition keeps them --------------------------------------------------------

  /** A definition that the redaction leaves alone holds none of the three, wherever it stands and whatever is
      around it. */
  lemma NothingIsLeft(p: string, a: Secret, b: Bearer, c: PrivateKey, t: string)
    requires a.Valid() && b.Valid() && c.Valid()
    ensures RedactSecrets(p + a.Then(t)) != p + a.Then(t)
    ensures t == "" || !InToken(t[0]) ==> RedactSecrets(p + b.Then(t)) != p + b.Then(t)
    ensures RedactSecrets(p + c.Then(t)) != p + c.Then(t)
  {
    hide RedactSecrets, SecretAt, BearerEnd, KeyEnd, Secret.Then, Bearer.Then, PrivateKey.Then, Secret.Valid,
         Bearer.Valid, PrivateKey.Valid;
    SecretIsRead(a, t);
    BehindPrefix(p, a.Then(t));
    RedactedIsClean(p + a.Then(t));
    KeyIsRead(c, t);
    BehindPrefix(p, c.Then(t));
    RedactedIsClean(p + c.Then(t));
    if t == "" || !InToken(t[0]) {
      BearerIsRead(b, t);
      BehindPrefix(p, b.Then(t));
      RedactedIsClean(p + b.Then(t));
    }
  }

  lemma BehindPrefix(p: string, s: string)
    requires s != ""
    ensures |p| < |p + s| && (p + s)[|p|..] == s
  {
  }
}
