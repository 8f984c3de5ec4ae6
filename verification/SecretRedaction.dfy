/** The redaction of secrets in SQL definitions: three patterns substituted one after another, when they
    leave a text alone, and a text that they redact twice. */
module SecretRedaction {
  import opened Text
  import opened Declarations
  import opened CatalogPhaseTwo
  import Json

  const MARK := "[REDACTED]"
  const ASSIGNED := "='[REDACTED]'"

  // ----- Assigned secrets ----------------------------------------------------------------

  /** `password|passwd|pwd|secret|api[_-]?key|token`, in any case. */
  function KeywordEnd(s: string): (r: Option<nat>)
    ensures r.Some? ==> 3 <= r.value <= |s|
  {
    if KeywordAt(s, "PASSWORD") then Some(8)
    else if KeywordAt(s, "PASSWD") then Some(6)
    else if KeywordAt(s, "PWD") then Some(3)
    else if KeywordAt(s, "SECRET") then Some(6)
    else if KeywordAt(s, "API") then
      if |s| > 3 && (s[3] == '_' || s[3] == '-') && KeywordAt(s[4..], "KEY") then Some(7)
      else if KeywordAt(s[3..], "KEY") then Some(6)
      else None
    else if KeywordAt(s, "TOKEN") then Some(5)
    else None
  }

  /** `(.*?)` and the closing quote: the first one on the line. */
  function CloseEnd(s: string, quote: char): (r: Option<nat>)
    ensures r.Some? ==> 1 <= r.value <= |s|
  {
    if s == "" || s[0] == '\n' then None
    else if s[0] == quote then Some(1)
    else Advance(CloseEnd(s[1..], quote), 1)
  }

  /** An assignment: how far it reaches, and its keyword. */
  datatype Assignment = Assignment(len: nat, keyword: nat)

  /** `keyword\s*=\s*quote(?!\[REDACTED\]quote)(.*?)quote` */
  function SecretAt(s: string): (r: Option<Assignment>)
    ensures r.Some? ==> 3 <= r.value.keyword < r.value.len <= |s|
  {
    match KeywordEnd(s)
    case None => None
    case Some(k) =>
      var a := k + SpaceRun(s[k..]);
      if a == |s| || s[a] != '=' then None else
      var b := a + 1 + SpaceRun(s[a + 1..]);
      if b == |s| || (s[b] != '\'' && s[b] != '"') then None else
      var rest := s[b + 1..];
      if Json.Starts(rest, MARK + [s[b]]) then None else
      match CloseEnd(rest, s[b])
      case None => None
      case Some(n) => Some(Assignment(b + 1 + n, k))
  }

  function HideSecrets(s: string): string
    decreases |s|
  {
    if s == "" then ""
    else
      match SecretAt(s)
      case Some(m) => s[..m.keyword] + ASSIGNED + HideSecrets(s[m.len..])
      case None => [s[0]] + HideSecrets(s[1..])
  }

  // ----- Bearer tokens -------------------------------------------------------------------

  predicate IsTokenChar(c: char) {
    IsLetter(c) || IsDigit(c) || c == '.' || c == '_' || c == '~' || c == '-'
  }

  function TokenRun(s: string): (n: nat)
    ensures n <= |s|
  {
    if s != "" && IsTokenChar(s[0]) then 1 + TokenRun(s[1..]) else 0
  }

  /** `bearer\s+[A-Za-z0-9._~-]+`, in any case. */
  function BearerEnd(s: string): (r: Option<nat>)
    ensures r.Some? ==> 8 <= r.value <= |s|
  {
    if !KeywordAt(s, "BEARER") then None else
    var n := SpaceRun(s[6..]);
    var k := TokenRun(s[6 + n..]);
    if n == 0 || k == 0 then None else Some(6 + n + k)
  }

  function HideBearers(s: string): string
    decreases |s|
  {
    if s == "" then ""
    else
      match BearerEnd(s)
      case Some(n) => MARK + HideBearers(s[n..])
      case None => [s[0]] + HideBearers(s[1..])
  }

  // ----- Private keys --------------------------------------------------------------------

  /** `PRIVATE KEY-----` behind an optional kind of key. */
  function KeyNameEnd(s: string): (r: Option<nat>)
    ensures r.Some? ==> r.value <= |s|
  {
    var kind := if Json.Starts(s, "RSA ") then 4
                else if Json.Starts(s, "EC ") then 3
                else if Json.Starts(s, "OPENSSH ") then 8
                else 0;
    if Json.Starts(s[kind..], "PRIVATE KEY-----") then Some(kind + 16) else None
  }

  function MarkerEnd(s: string, verb: string): (r: Option<nat>)
    ensures r.Some? ==> |verb| <= r.value <= |s|
  {
    if Json.Starts(s, verb) then Advance(KeyNameEnd(s[|verb|..]), |verb|) else None
  }

  /** `.*?` and the end marker, over any lines. */
  function FooterEnd(s: string): (r: Option<nat>)
    ensures r.Some? ==> r.value <= |s|
  {
    if MarkerEnd(s, "-----END ").Some? then MarkerEnd(s, "-----END ")
    else if s == "" then None
    else Advance(FooterEnd(s[1..]), 1)
  }

  function KeyEnd(s: string): (r: Option<nat>)
    ensures r.Some? ==> 11 <= r.value <= |s|
  {
    match MarkerEnd(s, "-----BEGIN ")
    case None => None
    case Some(n) => Advance(FooterEnd(s[n..]), n)
  }

  function HideKeys(s: string): string
    decreases |s|
  {
    if s == "" then ""
    else
      match KeyEnd(s)
      case Some(n) => MARK + HideKeys(s[n..])
      case None => [s[0]] + HideKeys(s[1..])
  }

  function RedactSecrets(s: string): string {
    HideKeys(HideBearers(HideSecrets(s)))
  }

  // ----- When a text is left alone -------------------------------------------------------

  predicate NoSecret(s: string) {
    forall i :: 0 <= i < |s| ==> SecretAt(s[i..]).None?
  }

  predicate NoBearer(s: string) {
    forall i :: 0 <= i < |s| ==> BearerEnd(s[i..]).None?
  }

  predicate NoKey(s: string) {
    forall i :: 0 <= i < |s| ==> KeyEnd(s[i..]).None?
  }

  /** A mark that no later pattern starts in. */
  predicate IsMark(w: string) {
    w == MARK || w == ASSIGNED
  }

  /** `t` shows a mark where `s` does not, and agrees with it before. */
  predicate ShowsAt(s: string, t: string, p: nat, w: string) {
    && IsMark(w) && p < |s|
    && Json.Starts(t, s[..p] + w) && !Json.Starts(s[p..], w)
  }

  ghost predicate Shows(s: string, t: string) {
    exists p: nat, w: string :: ShowsAt(s, t, p, w)
  }

  lemma ShownDiffer(s: string, t: string)
    requires Shows(s, t)
    ensures s != t
  {
    var p: nat, w: string :| ShowsAt(s, t, p, w);
    assert t[p..][..|w|] == t[..p + |w|][p..];
  }

  lemma ShowsShift(c: char, s: string, t: string)
    requires Shows(s, t)
    ensures Shows([c] + s, [c] + t)
  {
    var p: nat, w: string :| ShowsAt(s, t, p, w);
    assert ([c] + s)[..p + 1] == [c] + s[..p];
    assert ([c] + s)[p + 1..] == s[p..];
    assert ([c] + t)[..p + 1 + |w|] == [c] + t[..p + |w|];
    assert ShowsAt([c] + s, [c] + t, p + 1, w);
  }

  /** A secret that is hidden already is no match. */
  lemma HiddenIsNoSecret(s: string, k: nat)
    requires KeywordEnd(s) == Some(k) && Json.Starts(s[k..], ASSIGNED)
    ensures SecretAt(s).None?
  {
    hide KeywordEnd, CloseEnd;
    var t := s[k..];
    assert forall i :: 0 <= i < 13 ==> t[i] == t[..13][i];
    assert t[0] == '=' && t[1] == '\'';
    assert t[1..] == s[k + 1..] && t[2..] == s[k + 2..];
    assert t[2..][..11] == t[..13][2..];
    assert ASSIGNED[2..] == MARK + ['\''];
    assert SpaceRun(t) == 0 && SpaceRun(t[1..]) == 0;
  }

  lemma SecretShows(s: string)
    requires SecretAt(s).Some?
    ensures !Json.Starts(s[SecretAt(s).value.keyword..], ASSIGNED)
  {
    hide KeywordEnd, CloseEnd;
    if Json.Starts(s[SecretAt(s).value.keyword..], ASSIGNED) {
      HiddenIsNoSecret(s, SecretAt(s).value.keyword);
    }
  }

  lemma SecretNext(s: string)
    requires s != "" && SecretAt(s).None?
    ensures NoSecret(s) <==> NoSecret(s[1..])
  {
    hide SecretAt;
    forall i | 0 <= i < |s| - 1 ensures s[1..][i..] == s[i + 1..] {
    }
    forall i | 0 < i < |s| ensures s[i..] == s[1..][i - 1..] {
    }
    assert s[0..] == s;
  }

  /** The first pass changes a text exactly when the pattern matches somewhere, and then it shows. */
  lemma {:induction false} SecretsShow(s: string)
    ensures NoSecret(s) ==> HideSecrets(s) == s
    ensures !NoSecret(s) ==> Shows(s, HideSecrets(s))
    decreases |s|
  {
    hide SecretAt, Shows;
    if s == "" {
    } else if SecretAt(s).Some? {
      var k := SecretAt(s).value.keyword;
      SecretShows(s);
      assert s[0..] == s;
      assert ShowsAt(s, HideSecrets(s), k, ASSIGNED);
      ShownAt(s, HideSecrets(s), k, ASSIGNED);
    } else {
      SecretsShow(s[1..]);
      SecretNext(s);
      assert s == [s[0]] + s[1..];
      if !NoSecret(s) {
        ShowsShift(s[0], s[1..], HideSecrets(s[1..]));
      }
    }
  }

  lemma ShownAt(s: string, t: string, p: nat, w: string)
    requires ShowsAt(s, t, p, w)
    ensures Shows(s, t)
  {
  }

  // ----- The later passes ----------------------------------------------------------------

  /** What a later pass makes of a text: the same, or a mark where the pattern's first letter stood. */
  ghost predicate Passed(t: string, u: string) {
    u == t || exists q: nat :: PassedAt(t, u, q)
  }

  predicate PassedAt(t: string, u: string, q: nat) {
    q < |t| && (UpperChar(t[q]) == 'B' || t[q] == '-') && Json.Starts(u, t[..q] + MARK)
  }

  lemma PassedShift(c: char, t: string, u: string)
    requires exists q: nat :: PassedAt(t, u, q)
    ensures exists q: nat :: PassedAt([c] + t, [c] + u, q)
  {
    var q: nat :| PassedAt(t, u, q);
    assert ([c] + t)[..q + 1] == [c] + t[..q];
    assert ([c] + u)[..q + 1 + |MARK|] == [c] + u[..q + |MARK|];
    assert PassedAt([c] + t, [c] + u, q + 1);
  }

  lemma MarkHasNoLetter(w: string, j: nat)
    requires IsMark(w) && j < |w|
    ensures UpperChar(w[j]) != 'B' && w[j] != '-'
  {
  }

  /** A later pass puts its mark before the one that shows, or leaves that one alone. */
  lemma StillShows(s: string, t: string, u: string)
    requires Shows(s, t) && Passed(t, u)
    ensures Shows(s, u)
  {
    hide Json.Starts, IsMark, UpperChar;
    if u != t {
      var p: nat, w: string :| ShowsAt(s, t, p, w);
      var q: nat :| PassedAt(t, u, q);
      if q < p {
        FirstMark(s, t, u, p, w, q);
      } else {
        LaterMark(s, t, u, p, w, q);
      }
    }
  }

  lemma FirstMark(s: string, t: string, u: string, p: nat, w: string, q: nat)
    requires ShowsAt(s, t, p, w) && PassedAt(t, u, q) && q < p
    ensures Shows(s, u)
  {
    assert t[q] == t[..p + |w|][q] == s[q];
    assert t[..q] == t[..p + |w|][..q] == s[..q];
    assert s[q..][0] == s[q];
    assert ShowsAt(s, u, q, MARK);
  }

  lemma LaterMark(s: string, t: string, u: string, p: nat, w: string, q: nat)
    requires ShowsAt(s, t, p, w) && PassedAt(t, u, q) && p <= q
    ensures Shows(s, u)
  {
    if q < p + |w| {
      assert t[q] == t[..p + |w|][q] == w[q - p];
      MarkHasNoLetter(w, q - p);
    }
    assert u[..p + |w|] == u[..q + |MARK|][..p + |w|] == t[..q][..p + |w|] == t[..p + |w|];
    assert ShowsAt(s, u, p, w);
  }

  lemma ChangeShows(s: string, u: string)
    requires u != s && Passed(s, u)
    ensures Shows(s, u)
  {
    var q: nat :| PassedAt(s, u, q);
    assert s[q..][0] == s[q];
    assert ShowsAt(s, u, q, MARK);
  }

  lemma BearerNext(s: string)
    requires s != "" && BearerEnd(s).None?
    ensures NoBearer(s) <==> NoBearer(s[1..])
  {
    hide BearerEnd;
    forall i | 0 <= i < |s| - 1 ensures s[1..][i..] == s[i + 1..] {
    }
    forall i | 0 < i < |s| ensures s[i..] == s[1..][i - 1..] {
    }
    assert s[0..] == s;
  }

  lemma {:induction false} BearersPass(s: string)
    ensures NoBearer(s) ==> HideBearers(s) == s
    ensures !NoBearer(s) ==> HideBearers(s) != s && exists q: nat :: PassedAt(s, HideBearers(s), q)
    decreases |s|
  {
    hide BearerEnd, PassedAt;
    if s == "" {
    } else if BearerEnd(s).Some? {
      assert s[0..] == s;
      BearerStarts(s);
    } else {
      BearersPass(s[1..]);
      BearerNext(s);
      assert s == [s[0]] + s[1..];
      if !NoBearer(s) {
        PassedShift(s[0], s[1..], HideBearers(s[1..]));
        assert HideBearers(s)[1..] == HideBearers(s[1..]);
      }
    }
  }

  lemma BearerStarts(s: string)
    requires BearerEnd(s).Some?
    ensures HideBearers(s) != s && PassedAt(s, HideBearers(s), 0)
  {
    assert UpperChar(s[0]) == "BEARER"[0];
    assert s[..0] + MARK == MARK;
    assert HideBearers(s)[0] == '[';
  }

  lemma KeyNext(s: string)
    requires s != "" && KeyEnd(s).None?
    ensures NoKey(s) <==> NoKey(s[1..])
  {
    hide KeyEnd;
    forall i | 0 <= i < |s| - 1 ensures s[1..][i..] == s[i + 1..] {
    }
    forall i | 0 < i < |s| ensures s[i..] == s[1..][i - 1..] {
    }
    assert s[0..] == s;
  }

  lemma {:induction false} KeysPass(s: string)
    ensures NoKey(s) ==> HideKeys(s) == s
    ensures !NoKey(s) ==> HideKeys(s) != s && exists q: nat :: PassedAt(s, HideKeys(s), q)
    decreases |s|
  {
    hide KeyEnd, PassedAt;
    if s == "" {
    } else if KeyEnd(s).Some? {
      assert s[0..] == s;
      KeyStarts(s);
    } else {
      KeysPass(s[1..]);
      KeyNext(s);
      assert s == [s[0]] + s[1..];
      if !NoKey(s) {
        PassedShift(s[0], s[1..], HideKeys(s[1..]));
        assert HideKeys(s)[1..] == HideKeys(s[1..]);
      }
    }
  }

  lemma KeyOpens(s: string)
    requires KeyEnd(s).Some?
    ensures s[0] == '-'
  {
    hide FooterEnd, KeyNameEnd;
    assert s[0] == s[..11][0];
  }

  lemma KeyStarts(s: string)
    requires KeyEnd(s).Some?
    ensures HideKeys(s) != s && PassedAt(s, HideKeys(s), 0)
  {
    hide KeyEnd;
    KeyOpens(s);
    assert s[..0] + MARK == MARK;
    assert HideKeys(s)[0] == '[';
  }

  /** The redaction leaves a text alone exactly when none of its patterns matches anywhere in it: what one
      pass puts in, no later one takes back. */
  lemma RedactedIsClean(s: string)
    ensures RedactSecrets(s) == s <==> NoSecret(s) && NoBearer(s) && NoKey(s)
  {
    hide HideSecrets, HideBearers, HideKeys, NoSecret, NoBearer, NoKey, Shows, PassedAt;
    var t := HideSecrets(s);
    var u := HideBearers(t);
    var v := HideKeys(u);
    SecretsShow(s);
    BearersPass(t);
    KeysPass(u);
    if !NoSecret(s) {
      StillShows(s, t, u);
      StillShows(s, u, v);
      ShownDiffer(s, v);
    } else if !NoBearer(s) {
      ChangeShows(s, u);
      StillShows(s, u, v);
      ShownDiffer(s, v);
    }
  }

  // ----- A text that is redacted twice ---------------------------------------------------

  const BEFORE := "pwd='a"
  const TEXT := "pwd='abearer\nx'"
  const ONCE := "pwd='a[REDACTED]'"
  const TWICE := "pwd='[REDACTED]'"

  /** No keyword starts here. */
  predicate NoOpeningAt(s: string, i: nat) {
    && i < |s|
    && UpperChar(s[i]) != 'P' && UpperChar(s[i]) != 'S' && UpperChar(s[i]) != 'T'
    && (UpperChar(s[i]) == 'A' ==> i + 1 < |s| && UpperChar(s[i + 1]) != 'P')
  }

  predicate NoOpening(s: string) {
    forall i :: 0 <= i < |s| ==> NoOpeningAt(s, i)
  }

  lemma KeywordLetter(s: string, keyword: string, i: nat)
    requires KeywordAt(s, keyword) && i < |keyword|
    ensures i < |s| && UpperChar(s[i]) == keyword[i]
  {
  }

  lemma NoOpeningHere(s: string)
    requires s != "" && NoOpeningAt(s, 0)
    ensures SecretAt(s).None?
  {
    hide CloseEnd, KeywordAt;
    var keywords := ["PASSWORD", "PASSWD", "PWD", "SECRET", "API", "TOKEN"];
    forall k | 0 <= k < 6 ensures !KeywordAt(s, keywords[k]) {
      if KeywordAt(s, keywords[k]) {
        KeywordLetter(s, keywords[k], 0);
        KeywordLetter(s, keywords[k], 1);
      }
    }
    assert !KeywordAt(s, keywords[0]) && !KeywordAt(s, keywords[1]) && !KeywordAt(s, keywords[2]);
    assert !KeywordAt(s, keywords[3]) && !KeywordAt(s, keywords[4]) && !KeywordAt(s, keywords[5]);
  }

  lemma NoOpeningNoSecret(s: string)
    requires NoOpening(s)
    ensures NoSecret(s)
  {
    hide SecretAt;
    forall i | 0 <= i < |s| ensures SecretAt(s[i..]).None? {
      assert NoOpeningAt(s, i);
      NoOpeningHere(s[i..]);
    }
  }

  lemma {:induction false} LineBreaksQuote(a: string, b: string, quote: char)
    requires forall i :: 0 <= i < |a| ==> a[i] != quote
    ensures CloseEnd(a + "\n" + b, quote).None?
  {
    if a != "" {
      LineBreaksQuote(a[1..], b, quote);
      assert (a + "\n" + b)[1..] == a[1..] + "\n" + b;
    }
  }

  lemma {:induction false} QuoteCloses(a: string, quote: char)
    requires quote != '\n' && forall i :: 0 <= i < |a| ==> a[i] != quote && a[i] != '\n'
    ensures CloseEnd(a + [quote], quote) == Some(|a| + 1)
  {
    if a != "" {
      QuoteCloses(a[1..], quote);
      assert (a + [quote])[1..] == a[1..] + [quote];
    }
  }

  /** `pwd='` and what follows on it. */
  lemma PasswordAt(rest: string)
    requires rest != "" && !Json.Starts(rest, MARK + ['\''])
    ensures SecretAt("pwd='" + rest) ==
            match CloseEnd(rest, '\'')
            case None => None
            case Some(n) => Some(Assignment(5 + n, 3))
  {
    hide CloseEnd;
    var s := "pwd='" + rest;
    assert s[0] == 'p' && s[1] == 'w' && s[2] == 'd' && s[3] == '=' && s[4] == '\'';
    assert KeywordEnd(s) == Some(3);
    assert SpaceRun(s[3..]) == 0 && SpaceRun(s[4..]) == 0;
    assert s[5..] == rest;
  }

  lemma TextHasNoSecret()
    ensures HideSecrets(TEXT) == TEXT
  {
    hide SecretAt, CloseEnd;
    var rest := "abearer" + "\n" + "x'";
    assert TEXT == "pwd='" + rest;
    assert !Json.Starts(rest, MARK + ['\'']) by {
      assert rest[0] == 'a';
    }
    LineBreaksQuote("abearer", "x'", '\'');
    PasswordAt(rest);
    NoOpeningTail();
    NoOpeningNoSecret(TEXT[1..]);
    SecretNext(TEXT);
    SecretsShow(TEXT);
  }

  lemma NoOpeningTail()
    ensures NoOpening(TEXT[1..])
  {
    assert TEXT[1..] == "wd='abearer\nx'";
  }

  predicate HasNo(s: string, c: char) {
    forall i :: 0 <= i < |s| ==> UpperChar(s[i]) != c
  }

  lemma BearerNeedsB(s: string)
    requires s != "" && UpperChar(s[0]) != 'B'
    ensures BearerEnd(s).None?
  {
    assert UpperChar(s[0]) != "BEARER"[0];
  }

  lemma {:induction false} BearersBehind(p: string, t: string)
    requires HasNo(p, 'B')
    ensures HideBearers(p + t) == p + HideBearers(t)
    decreases |p|
  {
    hide BearerEnd;
    var s := p + t;
    if p == "" {
      assert s == t;
    } else {
      BearerNeedsB(s);
      BearersBehind(p[1..], t);
      assert s[1..] == p[1..] + t;
      assert p == [p[0]] + p[1..];
    }
  }

  lemma BearerInText()
    ensures HideBearers("bearer\nx'") == MARK + HideBearers("'")
  {
    var s := "bearer\nx'";
    assert KeywordAt(s, "BEARER");
    assert s[6..] == "\nx'" && s[7..] == "x'" && s[8..] == "'";
    assert SpaceRun(s[7..]) == 0 && SpaceRun(s[6..]) == 1 + SpaceRun(s[6..][1..]);
    assert s[6..][1..] == s[7..];
    assert TokenRun(s[8..]) == 0;
    assert s[7..][1..] == s[8..] && TokenRun(s[7..]) == 1;
    assert BearerEnd(s) == Some(8);
  }

  lemma TextLosesBearer()
    ensures HideBearers(TEXT) == ONCE
  {
    hide HideBearers;
    assert HasNo(BEFORE, 'B');
    assert TEXT == BEFORE + "bearer\nx'";
    BearersBehind(BEFORE, "bearer\nx'");
    BearerInText();
    assert HasNo("'", 'B') && "'" + "" == "'";
    BearersBehind("'", "");
    NothingHidden();
    assert ONCE == BEFORE + (MARK + "'");
  }

  lemma NothingHidden()
    ensures HideBearers("") == "" && HideSecrets("") == "" && HideKeys("") == ""
  {
  }

  lemma {:induction false} NoDashNoKey(s: string)
    requires HasNo(s, '-')
    ensures HideKeys(s) == s
    decreases |s|
  {
    hide KeyEnd;
    if s != "" {
      if KeyEnd(s).Some? {
        KeyOpens(s);
      }
      NoDashNoKey(s[1..]);
      assert s == [s[0]] + s[1..];
    }
  }

  /** The first pass leaves the quoted text alone, for it runs over two lines; the second makes one line of
      it. */
  lemma RedactedOnce()
    ensures RedactSecrets(TEXT) == ONCE
  {
    hide HideSecrets, HideBearers, HideKeys;
    TextHasNoSecret();
    TextLosesBearer();
    assert HasNo(ONCE, '-');
    NoDashNoKey(ONCE);
  }

  lemma OnceHasSecret()
    ensures HideSecrets(ONCE) == TWICE
  {
    hide SecretAt, CloseEnd;
    var inner := "a" + MARK;
    var rest := inner + ['\''];
    assert ONCE == "pwd='" + rest;
    assert !Json.Starts(rest, MARK + ['\'']) by {
      assert rest[0] == 'a';
    }
    assert forall i :: 0 <= i < |inner| ==> inner[i] != '\'' && inner[i] != '\n';
    QuoteCloses(inner, '\'');
    PasswordAt(rest);
    assert SecretAt(ONCE) == Some(Assignment(|ONCE|, 3));
    assert ONCE[..3] == "pwd" && ONCE[|ONCE|..] == "";
    assert TWICE == "pwd" + ASSIGNED + "";
  }

  lemma RedactedTwice()
    ensures RedactSecrets(ONCE) == TWICE && ONCE != TWICE
  {
    hide HideSecrets, HideBearers, HideKeys;
    OnceHasSecret();
    assert HasNo(TWICE, 'B') && HasNo(TWICE, '-');
    assert TWICE + "" == TWICE;
    BearersBehind(TWICE, "");
    NothingHidden();
    NoDashNoKey(TWICE);
    assert |ONCE| != |TWICE|;
  }

  // ----- A carried definition that drifts ------------------------------------------------

  /** The catalog's redaction: secrets first, then whatever marks personal data. */
  function Redaction(pii: string -> string): string -> string {
    (text: string) => pii(RedactSecrets(text))
  }

  lemma OneAnalyzed(table: ObjectRef, store: Store, c: DbObject, adapter: Adapter)
    requires Extracted(table, store, adapter) == AnalyzeObject(table, c, adapter) && c.ref == table
    ensures Step(Created([table], store), Select(Never), adapter).objects == [c]
    ensures var after := Worked([table], 1, store, adapter).store;
            HasCompleted(after, table) && after[table.objectId].extracted == c
  {
    hide Extracted, AnalyzeObject;
    AnalyzedObject(table, c, adapter);
    WorkedOne([table], store, adapter);
    assert RefsOf(Created([table], store).objects) == [table];
    assert [] + [c] == [c];
  }

  /** A table whose definition holds that text: the copy of its checkpoint is cleaned once more, so a new
      job that starts from the copy ends with another definition than one that starts from nothing. */
  lemma CarriedDefinitionDrifts(table: ObjectRef, o: DbObject, adapter: Adapter, pii: string -> string)
    requires table.objectType == Table && o.ref == table && o.definition == Some(TEXT)
    requires adapter.extract(table) == Ok(o) && adapter.redact == Redaction(pii)
    requires pii(ONCE) == ONCE && pii(TWICE) == TWICE
    ensures var previous := Worked([table], 1, map[], adapter).store;
            var carried := Carried(previous, {table.objectId});
            var resumed := Step(Created([table], carried), Select(Never), adapter).objects;
            var straight := Step(Created([table], map[]), Select(Never), adapter).objects;
            && AllFaithful(previous, [table], adapter) && !AllFaithful(carried, [table], adapter)
            && |resumed| == |straight| == 1
            && straight[0].definition == Some(ONCE) && resumed[0].definition == Some(TWICE)
  {
    hide RedactSecrets, AnalyzeObject, Worked, Step, IdsIdentify, Created;
    RedactedOnce();
    RedactedTwice();
    var once := Cleaned(o, adapter);
    var twice := Cleaned(once, adapter);
    OneAnalyzed(table, map[], once, adapter);
    var previous := Worked([table], 1, map[], adapter).store;
    OneTableIdentifies(table);
    WorkedIsStraight([table], 1, map[], adapter);
    var carried := Carried(previous, {table.objectId});
    assert carried[table.objectId] == DefinitionReused(once);
    OneAnalyzed(table, carried, twice, adapter);
    AnalyzedObject(table, once, adapter);
    AnalyzedObject(table, twice, adapter);
    assert !Faithful(carried, [table][0], adapter);
  }

  lemma OneTableIdentifies(table: ObjectRef)
    ensures IdsIdentify([table])
  {
  }
}
