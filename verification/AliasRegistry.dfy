/** The alias registry of a snapshot: which alias each digest holds, and what a run of requests can do
    to it. */
module AliasRegistry {
  import opened Text
  import opened Crockford

  const PREFIX := "user_"
  const EMAIL_SUFFIX := "@example.invalid"

  /** The first characters of a digest's form; a slice past the end is the whole form. */
  function Body(digest: Digest, length: nat): string {
    var encoded := Encode(digest);
    if length <= |encoded| then encoded[..length] else encoded
  }

  function Suffix(email: bool): string {
    if email then EMAIL_SUFFIX else ""
  }

  function AliasOf(digest: Digest, email: bool, length: nat): string {
    PREFIX + Body(digest, length) + Suffix(email)
  }

  type Registry = map<Digest, string>

  /** Nobody else holds the alias. */
  predicate Free(registry: Registry, digest: Digest, alias: string) {
    forall d :: d in registry && registry[d] == alias ==> d == digest
  }

  /** Lengths tried: 10, 12, and so on, until the alias is free; 52 uses the whole form. */
  function Choose(registry: Registry, digest: Digest, email: bool, length: nat): (r: nat)
    requires length <= 52 && length % 2 == 0
    ensures length <= r <= 52 && r % 2 == 0
    decreases 52 - length
  {
    if length == 52 || Free(registry, digest, AliasOf(digest, email, length)) then length
    else Choose(registry, digest, email, length + 2)
  }

  /** The length chosen is the first whose alias is free. */
  lemma {:induction false} ChosenIsFirst(registry: Registry, digest: Digest, email: bool, length: nat)
    requires length <= 52 && length % 2 == 0
    ensures var r := Choose(registry, digest, email, length);
            && (r < 52 ==> Free(registry, digest, AliasOf(digest, email, r)))
            && (forall k :: length <= k < r && k % 2 == 0 ==> !Free(registry, digest, AliasOf(digest, email, k)))
    decreases 52 - length
  {
    hide AliasOf, Free;
    if length < 52 && !Free(registry, digest, AliasOf(digest, email, length)) {
      ChosenIsFirst(registry, digest, email, length + 2);
    }
  }

  /** The alias a request gets. */
  function Answer(registry: Registry, digest: Digest, email: bool): string {
    AliasOf(digest, email, Choose(registry, digest, email, 10))
  }

  // ----- Invariants ----------------------------------------------------------------------

  predicate IsAliasOf(alias: string, digest: Digest) {
    exists email: bool, length: nat :: 10 <= length <= 52 && length % 2 == 0 && alias == AliasOf(digest, email, length)
  }

  ghost predicate WellFormed(registry: Registry) {
    forall d :: d in registry ==> IsAliasOf(registry[d], d)
  }

  predicate Injective(registry: Registry) {
    forall a, b :: a in registry && b in registry && registry[a] == registry[b] ==> a == b
  }

  lemma AliasParts(digest: Digest, email: bool, length: nat)
    requires length <= 52
    ensures |Encode(digest)| == 52 && |Body(digest, length)| == length && NoAt(Body(digest, length))
    ensures AliasOf(digest, email, length) == PREFIX + Body(digest, length) + Suffix(email)
  {
    hide Encode;
    EncodeIsInjective(digest, digest);
    EncodeHasNoAt(digest);
  }

  /** An alias shows its length, its kind and its part of the digest. */
  lemma AliasShows(a: Digest, e: bool, m: nat, b: Digest, f: bool, n: nat)
    requires m <= 52 && n <= 52
    requires AliasOf(a, e, m) == AliasOf(b, f, n)
    ensures e == f && m == n && Body(a, m) == Body(b, n)
  {
    hide AliasOf, Body;
    AliasParts(a, e, m);
    AliasParts(b, f, n);
    PartsShow(Body(a, m), e, Body(b, n), f);
  }

  lemma PartsShow(x: string, e: bool, y: string, f: bool)
    requires NoAt(x) && NoAt(y)
    requires PREFIX + x + Suffix(e) == PREFIX + y + Suffix(f)
    ensures e == f && x == y
  {
    hide Suffix, PREFIX, NoAt;
    DropPrefix(PREFIX, x, Suffix(e));
    DropPrefix(PREFIX, y, Suffix(f));
    SuffixShows(x, e, y, f);
  }

  lemma DropPrefix(prefix: string, x: string, suffix: string)
    ensures (prefix + x + suffix)[|prefix|..] == x + suffix
  {
  }

  lemma SuffixShows(x: string, e: bool, y: string, f: bool)
    requires NoAt(x) && NoAt(y)
    requires x + Suffix(e) == y + Suffix(f)
    ensures e == f && x == y
  {
    SuffixIsSeen(x, y);
    SuffixIsSeen(y, x);
    assert x + "" == x && y + "" == y;
    assert e == f;
    var n := |x + Suffix(e)| - |Suffix(e)|;
    assert (x + Suffix(e))[..n] == x && (y + Suffix(f))[..n] == y;
  }

  lemma SuffixIsSeen(x: string, y: string)
    requires NoAt(y)
    ensures x + EMAIL_SUFFIX != y
  {
    assert (x + EMAIL_SUFFIX)[|x|] == '@';
  }

  /** In a well-formed registry the whole form of a digest is always free for it. */
  lemma WholeFormIsFree(registry: Registry, digest: Digest, email: bool)
    requires WellFormed(registry)
    ensures Free(registry, digest, AliasOf(digest, email, 52))
  {
    hide AliasOf, Body, Encode;
    forall d | d in registry && registry[d] == AliasOf(digest, email, 52) ensures d == digest {
      assert IsAliasOf(registry[d], d);
      var e: bool, n: nat :| 10 <= n <= 52 && n % 2 == 0 && registry[d] == AliasOf(d, e, n);
      AliasShows(d, e, n, digest, email, 52);
      BodyWhole(d);
      BodyWhole(digest);
      EncodeIsInjective(d, digest);
    }
  }

  lemma BodyWhole(digest: Digest)
    ensures Body(digest, 52) == Encode(digest)
  {
    hide Encode;
    EncodeIsInjective(digest, digest);
    assert Encode(digest)[..52] == Encode(digest);
  }

  lemma AnswerIsFree(registry: Registry, digest: Digest, email: bool)
    requires WellFormed(registry)
    ensures Free(registry, digest, Answer(registry, digest, email))
    ensures IsAliasOf(Answer(registry, digest, email), digest)
  {
    hide AliasOf, Free, WellFormed;
    WholeFormIsFree(registry, digest, email);
    ChosenIsFirst(registry, digest, email, 10);
  }

  /** Every answer keeps the registry well formed and injective. */
  lemma AnswerKeeps(registry: Registry, digest: Digest, email: bool)
    requires WellFormed(registry) && Injective(registry)
    ensures var after := registry[digest := Answer(registry, digest, email)];
            WellFormed(after) && Injective(after)
  {
    hide Answer, IsAliasOf;
    AnswerIsFree(registry, digest, email);
  }

  // ----- The engine ----------------------------------------------------------------------

  class AliasEngine {
    var registry: Registry

    ghost predicate Valid()
      reads this
    {
      WellFormed(registry) && Injective(registry)
    }

    constructor ()
      ensures Valid() && registry == map[]
    {
      registry := map[];
    }

    /** Lengthens the alias until it is free, within 22 rounds, and records it. */
    method Alias(digest: Digest, email: bool) returns (alias: string, ghost rounds: nat)
      requires Valid()
      modifies this
      ensures Valid()
      ensures alias == Answer(old(registry), digest, email)
      ensures registry == old(registry)[digest := alias]
      ensures 1 <= rounds <= 22
    {
      hide AliasOf, WellFormed, Injective, Free;
      WholeFormIsFree(registry, digest, email);
      AnswerKeeps(registry, digest, email);
      var length := 10;
      alias := AliasOf(digest, email, length);
      rounds := 1;
      while !Free(registry, digest, alias)
        invariant length <= 52 && length % 2 == 0 && rounds == (length - 8) / 2
        invariant registry == old(registry)
        invariant alias == AliasOf(digest, email, length)
        invariant Choose(registry, digest, email, 10) == Choose(registry, digest, email, length)
        decreases 52 - length
      {
        length := length + 2;
        rounds := rounds + 1;
        alias := AliasOf(digest, email, length);
      }
      registry := registry[digest := alias];
    }
  }

  // ----- Runs ----------------------------------------------------------------------------

  datatype Ask = Ask(digest: Digest, email: bool)

  function Run(asks: seq<Ask>): Registry {
    if asks == [] then map[] else
    var before := Run(asks[..|asks| - 1]);
    var last := asks[|asks| - 1];
    before[last.digest := Answer(before, last.digest, last.email)]
  }

  /** What the k-th request of a run gets. */
  function Given(asks: seq<Ask>, k: nat): string
    requires k < |asks|
  {
    Answer(Run(asks[..k]), asks[k].digest, asks[k].email)
  }

  /** Over every run, whatever is asked under whatever class, no two digests hold one alias. */
  lemma {:induction false} RegistryStaysInjective(asks: seq<Ask>)
    ensures WellFormed(Run(asks)) && Injective(Run(asks))
  {
    hide Answer, WellFormed, Injective;
    if asks == [] {
      NothingRegistered();
    } else {
      RegistryStaysInjective(asks[..|asks| - 1]);
      var last := asks[|asks| - 1];
      AnswerKeeps(Run(asks[..|asks| - 1]), last.digest, last.email);
    }
  }

  lemma NothingRegistered()
    ensures WellFormed(map[]) && Injective(map[])
  {
  }

  // ----- One class per digest ------------------------------------------------------------

  /** The class is a matter of the digest alone. */
  predicate OneClass(asks: seq<Ask>) {
    forall i, j :: 0 <= i < |asks| && 0 <= j < |asks| && asks[i].digest == asks[j].digest ==> asks[i] == asks[j]
  }

  /** Asking again for a registered digest would give what it holds. */
  predicate Stable(registry: Registry, ask: Ask) {
    ask.digest in registry && registry[ask.digest] == Answer(registry, ask.digest, ask.email)
  }

  lemma FreeOnceTaken(registry: Registry, d: Digest, alias: string, digest: Digest, other: string)
    requires d !in registry && other != alias
    ensures Free(registry, digest, other) <==> Free(registry[d := alias], digest, other)
  {
    var after := registry[d := alias];
    if Free(after, digest, other) {
      forall x | x in registry && registry[x] == other ensures x == digest {
        assert x in after && after[x] == other;
      }
    }
  }

  /** A new entry frees no alias that was taken. */
  lemma TakenStays(registry: Registry, d: Digest, alias: string, digest: Digest, other: string)
    requires d !in registry && !Free(registry, digest, other)
    ensures !Free(registry[d := alias], digest, other)
  {
    var after := registry[d := alias];
    var x :| x in registry && registry[x] == other && x != digest;
    assert x in after && after[x] == other;
  }

  lemma ChooseIs(registry: Registry, digest: Digest, email: bool, n: nat)
    requires 10 <= n <= 52 && n % 2 == 0
    requires n == 52 || Free(registry, digest, AliasOf(digest, email, n))
    requires forall k :: 10 <= k < n && k % 2 == 0 ==> !Free(registry, digest, AliasOf(digest, email, k))
    ensures Choose(registry, digest, email, 10) == n
  {
    hide AliasOf, Free, Choose;
    ChosenIsFirst(registry, digest, email, 10);
  }

  lemma StableKept(registry: Registry, ask: Ask, d: Digest, email: bool)
    requires WellFormed(registry) && Stable(registry, ask) && d !in registry
    ensures Stable(registry[d := Answer(registry, d, email)], ask)
  {
    hide AliasOf, Free, WellFormed, Choose;
    var alias := Answer(registry, d, email);
    AnswerIsFree(registry, d, email);
    AnswerIsFree(registry, ask.digest, ask.email);
    NewAliasDiffers(registry, d, alias, ask.digest);
    ChooseKept(registry, ask.digest, ask.email, d, alias);
  }

  lemma NewAliasDiffers(registry: Registry, d: Digest, alias: string, digest: Digest)
    requires Free(registry, d, alias) && digest in registry && d !in registry
    ensures registry[digest] != alias
  {
  }

  lemma ChooseKept(registry: Registry, digest: Digest, email: bool, d: Digest, alias: string)
    requires WellFormed(registry) && d !in registry && Answer(registry, digest, email) != alias
    ensures Choose(registry[d := alias], digest, email, 10) == Choose(registry, digest, email, 10)
  {
    hide AliasOf, Free, WellFormed, Choose;
    ChosenIsFirst(registry, digest, email, 10);
    var n := Choose(registry, digest, email, 10);
    var after := registry[d := alias];
    WholeFormIsFree(registry, digest, email);
    FreeOnceTaken(registry, d, alias, digest, AliasOf(digest, email, n));
    forall k | 10 <= k < n && k % 2 == 0 ensures !Free(after, digest, AliasOf(digest, email, k)) {
      TakenStays(registry, d, alias, digest, AliasOf(digest, email, k));
    }
    ChooseIs(after, digest, email, n);
  }

  lemma NewIsStable(registry: Registry, ask: Ask)
    requires WellFormed(registry) && ask.digest !in registry
    ensures Stable(registry[ask.digest := Answer(registry, ask.digest, ask.email)], ask)
  {
    hide AliasOf, Free, WellFormed, Choose;
    ChosenIsFirst(registry, ask.digest, ask.email, 10);
    var n := Choose(registry, ask.digest, ask.email, 10);
    var alias := AliasOf(ask.digest, ask.email, n);
    var after := registry[ask.digest := alias];
    WholeFormIsFree(registry, ask.digest, ask.email);
    OwnIsFree(registry, ask.digest, alias);
    forall k | 10 <= k < n && k % 2 == 0 ensures !Free(after, ask.digest, AliasOf(ask.digest, ask.email, k)) {
      TakenStays(registry, ask.digest, alias, ask.digest, AliasOf(ask.digest, ask.email, k));
    }
    ChooseIs(after, ask.digest, ask.email, n);
  }

  lemma OwnIsFree(registry: Registry, digest: Digest, alias: string)
    requires Free(registry, digest, alias)
    ensures Free(registry[digest := alias], digest, alias)
  {
  }

  predicate AllStable(registry: Registry, asks: seq<Ask>) {
    && (forall i :: 0 <= i < |asks| ==> Stable(registry, asks[i]))
    && (forall d :: d in registry ==> exists i :: 0 <= i < |asks| && asks[i].digest == d)
  }

  lemma StableNext(registry: Registry, asks: seq<Ask>, last: Ask)
    requires WellFormed(registry) && AllStable(registry, asks) && OneClass(asks + [last])
    ensures AllStable(registry[last.digest := Answer(registry, last.digest, last.email)], asks + [last])
    ensures last.digest in registry ==>
              registry[last.digest := Answer(registry, last.digest, last.email)] == registry
  {
    hide Answer, WellFormed;
    var alias := Answer(registry, last.digest, last.email);
    var after := registry[last.digest := alias];
    var all := asks + [last];
    if last.digest in registry {
      var i :| 0 <= i < |asks| && asks[i].digest == last.digest;
      assert all[i] == asks[i] && all[|asks|] == last;
      assert Stable(registry, asks[i]);
      assert after == registry;
    } else {
      NewIsStable(registry, last);
      forall i | 0 <= i < |asks| ensures Stable(after, asks[i]) {
        StableKept(registry, asks[i], last.digest, last.email);
      }
      assert all[|asks|] == last;
    }
    forall d | d in after ensures exists i :: 0 <= i < |all| && all[i].digest == d {
      if d == last.digest {
        assert all[|asks|].digest == d;
      } else {
        var i :| 0 <= i < |asks| && asks[i].digest == d;
        assert all[i].digest == d;
      }
    }
  }

  lemma OneClassBefore(asks: seq<Ask>, n: nat)
    requires OneClass(asks) && n <= |asks|
    ensures OneClass(asks[..n])
  {
  }

  lemma {:induction false} RunIsStable(asks: seq<Ask>)
    requires OneClass(asks)
    ensures AllStable(Run(asks), asks)
  {
    hide Answer, AllStable, OneClass;
    if asks == [] {
      EmptyIsStable();
    } else {
      var init, last := asks[..|asks| - 1], asks[|asks| - 1];
      OneClassBefore(asks, |asks| - 1);
      RunIsStable(init);
      RegistryStaysInjective(init);
      assert asks == init + [last];
      StableNext(Run(init), init, last);
    }
  }

  lemma EmptyIsStable()
    ensures AllStable(map[], [])
  {
  }

  lemma GivenBefore(asks: seq<Ask>, n: nat, k: nat)
    requires k < n <= |asks|
    ensures Given(asks[..n], k) == Given(asks, k)
  {
    hide Answer, Run;
    assert asks[..n][..k] == asks[..k];
  }

  lemma GivenLast(asks: seq<Ask>)
    requires asks != []
    ensures var n := |asks| - 1; Run(asks) == Run(asks[..n])[asks[n].digest := Given(asks, n)]
  {
    hide Answer;
  }

  /** What a digest was given is what the registry of the whole run holds for it. */
  lemma {:induction false} GivenIsHeld(asks: seq<Ask>, k: nat)
    requires OneClass(asks) && k < |asks|
    ensures asks[k].digest in Run(asks) && Run(asks)[asks[k].digest] == Given(asks, k)
  {
    hide Run, Given, OneClass, AllStable;
    var n := |asks| - 1;
    GivenLast(asks);
    if k < n {
      OneClassBefore(asks, n);
      GivenIsHeld(asks[..n], k);
      GivenBefore(asks, n, k);
      GivenAgain(asks);
    }
  }

  lemma GivenAgain(asks: seq<Ask>)
    requires OneClass(asks) && asks != []
    ensures var n := |asks| - 1;
            asks[n].digest in Run(asks[..n]) ==> Run(asks) == Run(asks[..n])
  {
    hide Answer, OneClass, AllStable, WellFormed;
    var n := |asks| - 1;
    OneClassBefore(asks, n);
    RunIsStable(asks[..n]);
    RegistryStaysInjective(asks[..n]);
    assert asks == asks[..n] + [asks[n]];
    StableNext(Run(asks[..n]), asks[..n], asks[n]);
  }

  /** When every digest is asked for under one class, a repeated value always gets its first alias back
      and different values never share one. */
  lemma AliasesAreStable(asks: seq<Ask>, i: nat, j: nat)
    requires OneClass(asks) && i < |asks| && j < |asks|
    ensures Given(asks, i) == Given(asks, j) <==> asks[i].digest == asks[j].digest
  {
    hide Given, Run, OneClass, WellFormed;
    GivenIsHeld(asks, i);
    GivenIsHeld(asks, j);
    RegistryStaysInjective(asks);
  }

  lemma GivenShowsClass(asks: seq<Ask>, i: nat, j: nat)
    requires i < |asks| && j < |asks| && Given(asks, i) == Given(asks, j)
    ensures asks[i].email == asks[j].email
  {
    hide AliasOf, Run;
    var m := Choose(Run(asks[..i]), asks[i].digest, asks[i].email, 10);
    var n := Choose(Run(asks[..j]), asks[j].digest, asks[j].email, 10);
    AliasShows(asks[i].digest, asks[i].email, m, asks[j].digest, asks[j].email, n);
  }

  /** Aliases and digests correspond over a whole run. */
  predicate Corresponds(asks: seq<Ask>) {
    forall i, j :: 0 <= i < |asks| && 0 <= j < |asks| ==>
      (Given(asks, i) == Given(asks, j) <==> asks[i].digest == asks[j].digest)
  }

  /** They do exactly when every digest is asked for under one class. */
  lemma OneClassCorresponds(asks: seq<Ask>)
    ensures Corresponds(asks) <==> OneClass(asks)
  {
    hide Given;
    if OneClass(asks) {
      forall i, j | 0 <= i < |asks| && 0 <= j < |asks|
        ensures Given(asks, i) == Given(asks, j) <==> asks[i].digest == asks[j].digest
      {
        AliasesAreStable(asks, i, j);
      }
    } else {
      var i, j :| 0 <= i < |asks| && 0 <= j < |asks| && asks[i].digest == asks[j].digest && asks[i] != asks[j];
      if Given(asks, i) == Given(asks, j) {
        GivenShowsClass(asks, i, j);
        assert false;
      }
    }
  }

  /** Under two classes it does not hold: the registry forgets the first alias, and another digest with
      the same ten characters is then given it. */
  lemma ForgottenAliasIsReused(a: Digest, b: Digest)
    requires a != b && Body(a, 10) == Body(b, 10)
    ensures var asks := [Ask(a, false), Ask(a, true), Ask(b, false)];
            Given(asks, 0) == Given(asks, 2) && asks[0].digest != asks[2].digest
  {
    hide AliasOf, Body, Encode, Choose;
    var asks := [Ask(a, false), Ask(a, true), Ask(b, false)];
    var second := AliasOf(a, true, 10);
    RunOfTwo(a);
    KindsDiffer(a, b);
    FirstTen(map[], a, false);
    FirstTen(map[a := second], b, false);
    assert asks[..0] == [];
    assert asks[..2] == [Ask(a, false), Ask(a, true)];
    AliasParts(a, false, 10);
    AliasParts(b, false, 10);
  }

  lemma {:induction false} NoBytesSet(n: nat)
    ensures FromBytes(seq(n, _ => 0)) == 0
  {
    if n > 0 {
      assert seq(n, _ => 0 as Byte)[..n - 1] == seq(n - 1, _ => 0 as Byte);
      NoBytesSet(n - 1);
    }
  }

  lemma SmallForm(digest: Digest)
    requires FromBytes(digest) < 32
    ensures Body(digest, 10) == Zeros(10)
  {
    var n := FromBytes(digest);
    assert Digits(n / 32) == "";
    assert |if n == 0 then "0" else Digits(n)| == 1;
    assert Encode(digest)[..10] == Zeros(10);
  }

  /** There are such digests. */
  lemma DigestsShareTen() returns (a: Digest, b: Digest)
    ensures a != b && Body(a, 10) == Body(b, 10)
  {
    hide Body, Encode;
    var low: seq<Byte> := seq(31, _ => 0);
    NoBytesSet(31);
    a, b := low + [0], low + [1];
    assert a[31] != b[31];
    assert a[..31] == low && b[..31] == low;
    SmallForm(a);
    SmallForm(b);
  }

  lemma FirstTen(registry: Registry, digest: Digest, email: bool)
    requires Free(registry, digest, AliasOf(digest, email, 10))
    ensures Answer(registry, digest, email) == AliasOf(digest, email, 10)
  {
  }

  lemma KindsDiffer(a: Digest, b: Digest)
    ensures AliasOf(a, true, 10) != AliasOf(b, false, 10)
  {
  }

  lemma RunOfTwo(a: Digest)
    ensures Run([Ask(a, false), Ask(a, true)]) == map[a := AliasOf(a, true, 10)]
  {
    hide AliasOf, Choose;
    var asks := [Ask(a, false), Ask(a, true)];
    assert asks[..1] == [Ask(a, false)];
    assert asks[..1][..0] == [];
    FirstTen(map[], a, false);
    KindsDiffer(a, a);
    var first, second := AliasOf(a, false, 10), AliasOf(a, true, 10);
    FirstTen(map[a := first], a, true);
    assert Run(asks[..1]) == map[a := first];
    assert map[a := first][a := second] == map[a := second];
  }
}
