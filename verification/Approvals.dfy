/** Request-bound, single-use owner approvals, and what every run of them guarantees. */
module Approvals {
  import opened Text

  /** What an approval is for; the payload enters through its digest. */
  datatype Request = Request(caller: string, operation: string, target: string, digest: string)

  datatype Record = Record(id: string, request: Request, expires: int, granted: bool, consumed: bool)

  type Records = seq<Record>

  const PRESENCE_REQUIRED := "OWNER_PRESENCE_REQUIRED"
  const NOT_FOUND := "APPROVAL_NOT_FOUND"
  const EXPIRED := "APPROVAL_EXPIRED"
  const REQUIRED := "APPROVAL_REQUIRED"

  predicate Expired(r: Record, now: int) {
    r.expires <= now
  }

  function Find(records: Records, id: string): (r: Option<nat>)
    ensures r.Some? ==> r.value < |records| && records[r.value].id == id
    ensures r.None? ==> forall i :: 0 <= i < |records| ==> records[i].id != id
  {
    if records == [] then None
    else if records[|records| - 1].id == id then Some(|records| - 1)
    else Find(records[..|records| - 1], id)
  }

  /** A record stored under its identifier. */
  function Put(records: Records, r: Record): Records {
    match Find(records, r.id)
    case None => records + [r]
    case Some(i) => records[i := r]
  }

  predicate IsOpen(r: Record, request: Request, now: int) {
    r.request == request && !r.consumed && !Expired(r, now)
  }

  /** The first open record of a request, or the first that is also granted. */
  function FirstOpen(records: Records, request: Request, now: int, granted: bool): (r: Option<nat>)
    ensures r.Some? ==>
              r.value < |records| && IsOpen(records[r.value], request, now) && (granted ==> records[r.value].granted)
    ensures r.Some? ==> forall i :: 0 <= i < r.value ==>
              !(IsOpen(records[i], request, now) && (granted ==> records[i].granted))
    ensures r.None? ==> forall i :: 0 <= i < |records| ==>
              !(IsOpen(records[i], request, now) && (granted ==> records[i].granted))
  {
    if records == [] then None else
    var before := FirstOpen(records[..|records| - 1], request, now, granted);
    var last := records[|records| - 1];
    if before.Some? then before
    else if IsOpen(last, request, now) && (granted ==> last.granted) then Some(|records| - 1)
    else None
  }

  function Retained(records: Records, cutoff: int): (r: Records)
    ensures forall i :: 0 <= i < |r| ==> r[i] in records
  {
    if records == [] then []
    else Retained(records[..|records| - 1], cutoff)
         + (if records[|records| - 1].expires <= cutoff then [] else [records[|records| - 1]])
  }

  /** Calls of the service; an identifier drawn for a new challenge comes with the call, and so does the
      time. */
  datatype Event =
    | Challenge(request: Request, id: string, now: int)
    | Grant(id: string, interactive: bool, now: int)
    | Consume(id: string, request: Request, now: int)
    | Require(request: Request, id: string, now: int)
    | Cleanup(retain: int, now: int)

  datatype Outcome =
    | Challenged(id: string)
    | Pending(id: string)
    | Granted
    | Accepted(id: string)
    | Refused(code: string)
    | Cleaned

  predicate CanConsume(records: Records, e: Event)
    requires e.Consume?
  {
    var found := Find(records, e.id);
    found.Some? && IsOpen(records[found.value], e.request, e.now) && records[found.value].granted
  }

  function Step(ttl: nat, records: Records, e: Event): (Records, Outcome) {
    match e
    case Challenge(request, id, now) =>
      (Put(records, Record(id, request, now + ttl, false, false)), Challenged(id))
    case Grant(id, interactive, now) =>
      if !interactive then (records, Refused(PRESENCE_REQUIRED))
      else (match Find(records, id)
            case None => (records, Refused(NOT_FOUND))
            case Some(i) =>
              if Expired(records[i], now) then (records, Refused(EXPIRED))
              else (records[i := records[i].(granted := true)], Granted))
    case Consume(id, request, now) =>
      if !CanConsume(records, e) then (records, Refused(REQUIRED))
      else var i := Find(records, id).value;
           (records[i := records[i].(consumed := true)], Accepted(id))
    case Require(request, id, now) =>
      (match FirstOpen(records, request, now, true)
       case Some(i) => (records[i := records[i].(consumed := true)], Accepted(records[i].id))
       case None =>
         match FirstOpen(records, request, now, false)
         case Some(i) => (records, Pending(records[i].id))
         case None => (Put(records, Record(id, request, now + ttl, false, false)), Challenged(id)))
    case Cleanup(retain, now) => (Retained(records, now - retain), Cleaned)
  }

  // ----- What the store of records keeps -------------------------------------------------

  predicate UniqueIds(records: Records) {
    forall i, j :: 0 <= i < j < |records| ==> records[i].id != records[j].id
  }

  lemma {:induction false} RetainedAreUnique(records: Records, cutoff: int)
    requires UniqueIds(records)
    ensures UniqueIds(Retained(records, cutoff))
  {
    if records != [] {
      var n := |records| - 1;
      RetainedAreUnique(records[..n], cutoff);
      var kept := Retained(records[..n], cutoff);
      forall i | 0 <= i < |kept| ensures kept[i].id != records[n].id {
        assert kept[i] in records[..n];
      }
    }
  }

  lemma StepKeepsUnique(ttl: nat, records: Records, e: Event)
    requires UniqueIds(records)
    ensures UniqueIds(Step(ttl, records, e).0)
  {
    hide Find, FirstOpen, Retained;
    if e.Cleanup? {
      RetainedAreUnique(records, e.now - e.retain);
    }
  }

  /** A stored record replaces the one with its identifier, if there is one. */
  lemma PutMeans(records: Records, r: Record)
    requires UniqueIds(records)
    ensures forall s: Record :: s in Put(records, r) <==> s == r || (s in records && s.id != r.id)
  {
    hide Find;
    var found := Find(records, r.id);
    if found.Some? {
      assert Put(records, r)[found.value] == r;
      forall s: Record | s in records && s.id != r.id ensures s in Put(records, r) {
        var i :| 0 <= i < |records| && records[i] == s;
        assert Put(records, r)[i] == s;
      }
    }
  }

  lemma {:induction false} RetainedMeans(records: Records, cutoff: int)
    ensures forall s: Record :: s in Retained(records, cutoff) <==> s in records && s.expires > cutoff
  {
    if records != [] {
      RetainedMeans(records[..|records| - 1], cutoff);
      assert records == records[..|records| - 1] + [records[|records| - 1]];
    }
  }

  // ----- What a call means for the records -----------------------------------------------

  /** Not used, not expired, and for exactly this request. */
  predicate CanBeUsed(r: Record, request: Request, now: int) {
    r.request == request && !r.consumed && now < r.expires
  }

  /** The records after one of them was replaced by another version of itself. */
  ghost predicate Replaced(before: Records, after: Records, r: Record, version: Record) {
    && r in before && version.id == r.id
    && forall s: Record :: s in after <==> s == version || (s in before && s.id != r.id)
  }

  /** An acceptance uses up one granted challenge of the request. */
  ghost predicate Accepts(before: Records, after: Records, request: Request, now: int, id: string) {
    exists r :: r in before && r.id == id && CanBeUsed(r, request, now) && r.granted
             && Replaced(before, after, r, r.(consumed := true))
  }

  lemma UpdateReplaces(records: Records, i: nat, version: Record)
    requires UniqueIds(records) && i < |records| && version.id == records[i].id
    ensures Replaced(records, records[i := version], records[i], version)
  {
    var after := records[i := version];
    assert after[i] == version;
    forall s: Record | s in records && s.id != version.id ensures s in after {
      var k :| 0 <= k < |records| && records[k] == s;
      assert after[k] == s;
    }
  }

  lemma FoundById(records: Records, id: string)
    requires UniqueIds(records)
    ensures Find(records, id).Some? ==> forall r :: r in records && r.id == id ==> r == records[Find(records, id).value]
    ensures Find(records, id).None? ==> forall r :: r in records ==> r.id != id
  {
    hide Find;
  }

  lemma FirstOpenIs(records: Records, request: Request, now: int, granted: bool)
    ensures FirstOpen(records, request, now, granted).Some? <==>
              exists r :: r in records && CanBeUsed(r, request, now) && (granted ==> r.granted)
    ensures FirstOpen(records, request, now, granted).Some? ==>
              var r := records[FirstOpen(records, request, now, granted).value];
              CanBeUsed(r, request, now) && (granted ==> r.granted)
  {
    hide FirstOpen;
  }

  /** A grant is given exactly from an interactive session, to a challenge that exists and has time left; it
      marks that challenge and nothing else. */
  ghost predicate GrantMeans(before: Records, after: Records, id: string, interactive: bool, now: int, o: Outcome) {
    && (o == Granted <==> interactive && exists r :: r in before && r.id == id && now < r.expires)
    && (o == Granted ==> exists r :: r in before && r.id == id && Replaced(before, after, r, r.(granted := true)))
    && (o != Granted ==>
          && after == before
          && o == Refused(if !interactive then PRESENCE_REQUIRED
                          else if exists r :: r in before && r.id == id then EXPIRED else NOT_FOUND))
  }

  lemma GrantIs(ttl: nat, records: Records, id: string, interactive: bool, now: int)
    requires UniqueIds(records)
    ensures var (after, o) := Step(ttl, records, Grant(id, interactive, now));
            GrantMeans(records, after, id, interactive, now, o)
  {
    hide Find, UniqueIds, Replaced;
    FoundById(records, id);
    var found := Find(records, id);
    if found.Some? {
      assert records[found.value] in records;
      UpdateReplaces(records, found.value, records[found.value].(granted := true));
    }
  }

  /** A challenge is consumed exactly when the one named is for this request, granted, unused and in time. */
  ghost predicate ConsumeMeans(before: Records, after: Records, id: string, request: Request, now: int, o: Outcome) {
    && (o == Accepted(id) <==> exists r :: r in before && r.id == id && CanBeUsed(r, request, now) && r.granted)
    && (o == Accepted(id) ==> Accepts(before, after, request, now, id))
    && (o != Accepted(id) ==> after == before && o == Refused(REQUIRED))
  }

  lemma ConsumeIs(ttl: nat, records: Records, id: string, request: Request, now: int)
    requires UniqueIds(records)
    ensures var (after, o) := Step(ttl, records, Consume(id, request, now));
            ConsumeMeans(records, after, id, request, now, o)
  {
    hide Find, UniqueIds, Replaced;
    FoundById(records, id);
    var found := Find(records, id);
    if found.Some? {
      assert records[found.value] in records;
      UpdateReplaces(records, found.value, records[found.value].(consumed := true));
    }
  }

  /** An approval is required: it is accepted exactly when some granted challenge of this request can be used,
      and one is then used up; it is pending exactly when none is granted but one is open; otherwise a new
      challenge is issued. */
  ghost predicate RequireMeans(ttl: nat, before: Records, after: Records, request: Request, id: string, now: int,
                               o: Outcome) {
    && (o.Accepted? <==> exists r :: r in before && CanBeUsed(r, request, now) && r.granted)
    && (o.Accepted? ==> Accepts(before, after, request, now, o.id))
    && (o.Pending? <==>
          && (exists r :: r in before && CanBeUsed(r, request, now))
          && forall r :: r in before && CanBeUsed(r, request, now) ==> !r.granted)
    && (o.Pending? ==> after == before && exists r :: r in before && r.id == o.id && CanBeUsed(r, request, now))
    && (!o.Accepted? && !o.Pending? ==>
          && o == Challenged(id)
          && forall r: Record :: r in after <==>
               || r == Record(id, request, now + ttl, false, false)
               || (r in before && r.id != id))
  }

  lemma RequireIs(ttl: nat, records: Records, request: Request, id: string, now: int)
    requires UniqueIds(records)
    ensures var (after, o) := Step(ttl, records, Require(request, id, now));
            RequireMeans(ttl, records, after, request, id, now, o)
  {
    hide FirstOpen, UniqueIds, Put, Replaced;
    FirstOpenIs(records, request, now, true);
    FirstOpenIs(records, request, now, false);
    var granted := FirstOpen(records, request, now, true);
    if granted.Some? {
      assert records[granted.value] in records;
      UpdateReplaces(records, granted.value, records[granted.value].(consumed := true));
    } else {
      PutMeans(records, Record(id, request, now + ttl, false, false));
    }
  }

  // ----- The service ---------------------------------------------------------------------

  class ApprovalService {
    var records: Records
    const ttl: nat

    /** The records are a mapping from identifiers. */
    ghost predicate Valid()
      reads this
    {
      UniqueIds(records)
    }

    constructor (seconds: nat)
      ensures Valid() && records == [] && ttl == seconds
    {
      records, ttl := [], seconds;
    }

    method NewChallenge(request: Request, id: string, now: int) returns (outcome: Outcome)
      requires Valid()
      modifies this
      ensures Valid()
      ensures (records, outcome) == Step(ttl, old(records), Challenge(request, id, now))
      ensures outcome == Challenged(id)
      ensures forall r: Record :: r in records <==>
                || r == Record(id, request, now + ttl, false, false)
                || (r in old(records) && r.id != id)
    {
      hide Put, UniqueIds;
      StepKeepsUnique(ttl, records, Challenge(request, id, now));
      PutMeans(records, Record(id, request, now + ttl, false, false));
      records := Put(records, Record(id, request, now + ttl, false, false));
      return Challenged(id);
    }

    method GrantChallenge(id: string, interactive: bool, now: int) returns (outcome: Outcome)
      requires Valid()
      modifies this
      ensures Valid()
      ensures (records, outcome) == Step(ttl, old(records), Grant(id, interactive, now))
      ensures GrantMeans(old(records), records, id, interactive, now, outcome)
    {
      hide UniqueIds, GrantMeans;
      GrantIs(ttl, records, id, interactive, now);
      StepKeepsUnique(ttl, records, Grant(id, interactive, now));
      if !interactive {
        return Refused(PRESENCE_REQUIRED);
      }
      var found := Find(records, id);
      if found.None? {
        return Refused(NOT_FOUND);
      }
      var record := records[found.value];
      if Expired(record, now) {
        return Refused(EXPIRED);
      }
      records := records[found.value := record.(granted := true)];
      return Granted;
    }

    method ConsumeChallenge(id: string, request: Request, now: int) returns (outcome: Outcome)
      requires Valid()
      modifies this
      ensures Valid()
      ensures (records, outcome) == Step(ttl, old(records), Consume(id, request, now))
      ensures ConsumeMeans(old(records), records, id, request, now, outcome)
    {
      hide UniqueIds, ConsumeMeans;
      ConsumeIs(ttl, records, id, request, now);
      StepKeepsUnique(ttl, records, Consume(id, request, now));
      var found := Find(records, id);
      if found.None? {
        return Refused(REQUIRED);
      }
      var record := records[found.value];
      if record.request != request || !record.granted || record.consumed || Expired(record, now) {
        return Refused(REQUIRED);
      }
      records := records[found.value := record.(consumed := true)];
      return Accepted(id);
    }

    method RequireApproval(request: Request, id: string, now: int) returns (outcome: Outcome)
      requires Valid()
      modifies this
      ensures Valid()
      ensures (records, outcome) == Step(ttl, old(records), Require(request, id, now))
      ensures RequireMeans(ttl, old(records), records, request, id, now, outcome)
    {
      hide UniqueIds, RequireMeans;
      RequireIs(ttl, records, request, id, now);
      StepKeepsUnique(ttl, records, Require(request, id, now));
      var granted := FirstOpen(records, request, now, true);
      if granted.Some? {
        var record := records[granted.value];
        records := records[granted.value := record.(consumed := true)];
        return Accepted(record.id);
      }
      var pending := FirstOpen(records, request, now, false);
      if pending.Some? {
        return Pending(records[pending.value].id);
      }
      outcome := NewChallenge(request, id, now);
    }

    method CleanupExpired(retain: int, now: int) returns (outcome: Outcome)
      requires Valid()
      modifies this
      ensures Valid()
      ensures (records, outcome) == Step(ttl, old(records), Cleanup(retain, now))
      ensures forall r: Record :: r in records <==> r in old(records) && r.expires > now - retain
    {
      hide Retained, UniqueIds;
      StepKeepsUnique(ttl, records, Cleanup(retain, now));
      RetainedMeans(records, now - retain);
      records := Retained(records, now - retain);
      return Cleaned;
    }
  }

  // ----- Runs ----------------------------------------------------------------------------

  function Run(ttl: nat, events: seq<Event>): Records {
    if events == [] then [] else Step(ttl, Run(ttl, events[..|events| - 1]), events[|events| - 1]).0
  }

  function OutcomeAt(ttl: nat, events: seq<Event>, k: nat): Outcome
    requires k < |events|
  {
    Step(ttl, Run(ttl, events[..k]), events[k]).1
  }

  predicate HasRequest(e: Event) {
    e.Challenge? || e.Consume? || e.Require?
  }

  /** The event issued this challenge. */
  predicate IssuedAt(ttl: nat, events: seq<Event>, i: nat, r: Record) {
    && i < |events| && (events[i].Challenge? || events[i].Require?)
    && OutcomeAt(ttl, events, i) == Challenged(r.id)
    && events[i].request == r.request && r.expires == events[i].now + ttl
  }

  /** The owner granted it, from an interactive session and in time. */
  predicate GrantedAt(ttl: nat, events: seq<Event>, g: nat, r: Record) {
    && g < |events| && events[g].Grant? && events[g].id == r.id && events[g].interactive
    && OutcomeAt(ttl, events, g) == Granted && events[g].now < r.expires
  }

  predicate Earned(ttl: nat, events: seq<Event>, r: Record) {
    exists i, g :: 0 <= i < g < |events| && IssuedAt(ttl, events, i, r) && GrantedAt(ttl, events, g, r)
  }

  predicate Issued(ttl: nat, events: seq<Event>, r: Record) {
    exists i :: 0 <= i < |events| && IssuedAt(ttl, events, i, r)
  }

  /** Every record was issued by an earlier call, and granted by one if it says so. */
  predicate Justified(ttl: nat, events: seq<Event>, r: Record) {
    Issued(ttl, events, r) && (r.granted ==> Earned(ttl, events, r))
  }

  lemma OutcomeKept(ttl: nat, events: seq<Event>, n: nat, k: nat)
    requires k < n <= |events|
    ensures OutcomeAt(ttl, events[..n], k) == OutcomeAt(ttl, events, k)
  {
    assert events[..n][..k] == events[..k];
  }

  lemma JustifiedKept(ttl: nat, events: seq<Event>, n: nat, r: Record)
    requires n <= |events| && Justified(ttl, events[..n], r)
    ensures Justified(ttl, events, r)
  {
    hide OutcomeAt;
    var i :| 0 <= i < n && IssuedAt(ttl, events[..n], i, r);
    OutcomeKept(ttl, events, n, i);
    assert IssuedAt(ttl, events, i, r);
    if r.granted {
      var j, g :| 0 <= j < g < n && IssuedAt(ttl, events[..n], j, r) && GrantedAt(ttl, events[..n], g, r);
      OutcomeKept(ttl, events, n, j);
      OutcomeKept(ttl, events, n, g);
      assert IssuedAt(ttl, events, j, r) && GrantedAt(ttl, events, g, r);
    }
  }

  /** What a step can do to a record: issue it, grant it, consume it, or keep it. */
  lemma StepRecords(ttl: nat, records: Records, e: Event, r: Record)
    requires r in Step(ttl, records, e).0
    ensures || r in records
            || (&& (e.Challenge? || e.Require?) && Step(ttl, records, e).1 == Challenged(e.id)
                && r == Record(e.id, e.request, e.now + ttl, false, false))
            || (&& e.Grant? && e.interactive && Step(ttl, records, e).1 == Granted && r.id == e.id && r.granted
                && e.now < r.expires && exists b :: b in records && r == b.(granted := true))
            || (exists b :: b in records && b.granted && r == b.(consumed := true))
  {
  }

  ghost predicate AllJustified(ttl: nat, events: seq<Event>, records: Records) {
    forall r :: r in records ==> Justified(ttl, events, r)
  }

  lemma RunNext(ttl: nat, init: seq<Event>, e: Event)
    ensures Run(ttl, init + [e]) == Step(ttl, Run(ttl, init), e).0
    ensures OutcomeAt(ttl, init + [e], |init|) == Step(ttl, Run(ttl, init), e).1
  {
  }

  lemma StepJustifies(ttl: nat, init: seq<Event>, e: Event, r: Record)
    requires r in Step(ttl, Run(ttl, init), e).0
    requires AllJustified(ttl, init, Run(ttl, init))
    ensures Justified(ttl, init + [e], r)
  {
    hide Step, Run, OutcomeAt, Justified, Issued, Earned;
    var before, events := Run(ttl, init), init + [e];
    RunNext(ttl, init, e);
    StepRecords(ttl, before, e, r);
    assert events[..|init|] == init;
    if r in before {
      JustifiedKept(ttl, events, |init|, r);
    } else if exists b :: b in before && b.granted && r == b.(consumed := true) {
      var b :| b in before && b.granted && r == b.(consumed := true);
      JustifiedKept(ttl, events, |init|, b);
      ConsumedJustified(ttl, events, b);
    } else if e.Grant? {
      var b :| b in before && r == b.(granted := true);
      GrantJustifies(ttl, init, e, b);
    } else {
      NewJustified(ttl, events, r);
    }
  }

  lemma SameIssue(ttl: nat, events: seq<Event>, i: nat, r: Record, s: Record)
    requires r.id == s.id && r.request == s.request && r.expires == s.expires
    ensures IssuedAt(ttl, events, i, r) <==> IssuedAt(ttl, events, i, s)
    ensures GrantedAt(ttl, events, i, r) <==> GrantedAt(ttl, events, i, s)
  {
  }

  lemma ConsumedJustified(ttl: nat, events: seq<Event>, b: Record)
    requires Justified(ttl, events, b)
    ensures Justified(ttl, events, b.(consumed := true))
  {
    hide IssuedAt, GrantedAt;
    var r := b.(consumed := true);
    forall i: nat ensures IssuedAt(ttl, events, i, b) <==> IssuedAt(ttl, events, i, r) {
      SameIssue(ttl, events, i, b, r);
    }
    forall i: nat ensures GrantedAt(ttl, events, i, b) <==> GrantedAt(ttl, events, i, r) {
      SameIssue(ttl, events, i, b, r);
    }
  }

  lemma GrantJustifies(ttl: nat, init: seq<Event>, e: Event, b: Record)
    requires Justified(ttl, init, b)
    requires GrantedAt(ttl, init + [e], |init|, b.(granted := true))
    ensures Justified(ttl, init + [e], b.(granted := true))
  {
    hide OutcomeAt, GrantedAt;
    var r, events := b.(granted := true), init + [e];
    assert events[..|init|] == init;
    var i :| 0 <= i < |init| && IssuedAt(ttl, init, i, b);
    OutcomeKept(ttl, events, |init|, i);
    assert IssuedAt(ttl, events, i, r);
  }

  lemma NewJustified(ttl: nat, events: seq<Event>, r: Record)
    requires events != [] && !r.granted && IssuedAt(ttl, events, |events| - 1, r)
    ensures Justified(ttl, events, r)
  {
  }

  lemma {:induction false} RunIsJustified(ttl: nat, events: seq<Event>)
    ensures AllJustified(ttl, events, Run(ttl, events))
  {
    hide Step, Justified;
    if events != [] {
      var init, e := events[..|events| - 1], events[|events| - 1];
      RunIsJustified(ttl, init);
      assert events == init + [e];
      RunNext(ttl, init, e);
      forall r | r in Run(ttl, events) ensures Justified(ttl, events, r) {
        StepJustifies(ttl, init, e, r);
      }
    }
  }

  /** An acceptance consumes a record of exactly the request made, granted and still valid. */
  lemma AcceptedRecord(ttl: nat, records: Records, e: Event) returns (i: nat)
    requires Step(ttl, records, e).1.Accepted?
    ensures e.Consume? || e.Require?
    ensures i < |records|
        && Step(ttl, records, e) == (records[i := records[i].(consumed := true)], Accepted(records[i].id))
    ensures IsOpen(records[i], e.request, e.now) && records[i].granted
  {
    i := if e.Consume? then Find(records, e.id).value else FirstOpen(records, e.request, e.now, true).value;
  }

  /** Whatever the run, and whatever the clock does, every acceptance is for a challenge that an earlier
      call issued for exactly that caller, operation, target and digest, that the owner then granted in
      time, and that has not expired. */
  lemma AcceptanceIsEarned(ttl: nat, events: seq<Event>, k: nat)
    requires k < |events| && OutcomeAt(ttl, events, k).Accepted?
    ensures HasRequest(events[k])
    ensures exists r: Record :: r.id == OutcomeAt(ttl, events, k).id && r.request == events[k].request
                             && events[k].now < r.expires && Earned(ttl, events[..k], r)
  {
    hide Step, Earned, Issued;
    var records := Run(ttl, events[..k]);
    var i := AcceptedRecord(ttl, records, events[k]);
    RunIsJustified(ttl, events[..k]);
    assert records[i] in records;
    assert Justified(ttl, events[..k], records[i]);
  }

  // ----- Single use ----------------------------------------------------------------------

  function IdOf(e: Event): Option<string> {
    if e.Challenge? || e.Require? then Some(e.id) else None
  }

  /** The identifiers drawn for new challenges never repeat. */
  predicate FreshIds(events: seq<Event>) {
    forall i, j :: 0 <= i < j < |events| && IdOf(events[i]).Some? ==> IdOf(events[i]) != IdOf(events[j])
  }

  predicate Spent(records: Records, id: string) {
    forall i :: 0 <= i < |records| && records[i].id == id ==> records[i].consumed
  }

  lemma StepKeepsSpent(ttl: nat, records: Records, e: Event, id: string)
    requires Spent(records, id) && IdOf(e) != Some(id)
    ensures Spent(Step(ttl, records, e).0, id)
  {
  }

  lemma AcceptedIsSpent(ttl: nat, records: Records, e: Event)
    requires UniqueIds(records) && Step(ttl, records, e).1.Accepted?
    ensures Spent(Step(ttl, records, e).0, Step(ttl, records, e).1.id)
  {
  }

  lemma SpentIsNotAccepted(ttl: nat, records: Records, e: Event, id: string)
    requires Spent(records, id)
    ensures Step(ttl, records, e).1 != Accepted(id)
  {
  }

  lemma {:induction false} RunHasUniqueIds(ttl: nat, events: seq<Event>)
    ensures UniqueIds(Run(ttl, events))
  {
    hide Step, UniqueIds;
    if events == [] {
      NoIds();
    } else {
      RunHasUniqueIds(ttl, events[..|events| - 1]);
      StepKeepsUnique(ttl, Run(ttl, events[..|events| - 1]), events[|events| - 1]);
    }
  }

  lemma NoIds()
    ensures UniqueIds([])
  {
  }

  /** The challenge accepted was drawn before. */
  lemma AcceptedWasDrawn(ttl: nat, events: seq<Event>, k: nat) returns (i: nat)
    requires k < |events| && OutcomeAt(ttl, events, k).Accepted?
    ensures i < k && IdOf(events[i]) == Some(OutcomeAt(ttl, events, k).id)
  {
    hide Step;
    AcceptanceIsEarned(ttl, events, k);
    var r: Record :| r.id == OutcomeAt(ttl, events, k).id && Earned(ttl, events[..k], r);
    i := EarnedWasIssued(ttl, events[..k], r);
    IssuedIsDrawn(ttl, events[..k], i, r);
  }

  lemma EarnedWasIssued(ttl: nat, events: seq<Event>, r: Record) returns (i: nat)
    requires Earned(ttl, events, r)
    ensures i < |events| && IssuedAt(ttl, events, i, r)
  {
    hide IssuedAt, GrantedAt;
    var j, g :| 0 <= j < g < |events| && IssuedAt(ttl, events, j, r) && GrantedAt(ttl, events, g, r);
    i := j;
  }

  lemma IssuedIsDrawn(ttl: nat, events: seq<Event>, i: nat, r: Record)
    requires IssuedAt(ttl, events, i, r)
    ensures IdOf(events[i]) == Some(r.id)
  {
  }

  lemma {:induction false} AcceptedStaysSpent(ttl: nat, events: seq<Event>, k: nat, n: nat)
    requires FreshIds(events) && k < n <= |events| && OutcomeAt(ttl, events, k).Accepted?
    ensures Spent(Run(ttl, events[..n]), OutcomeAt(ttl, events, k).id)
  {
    hide Step, Spent, UniqueIds;
    var before := events[..n - 1];
    assert events[..n][..n - 1] == before;
    assert events[..n] == before + [events[n - 1]];
    RunNext(ttl, before, events[n - 1]);
    if k == n - 1 {
      RunHasUniqueIds(ttl, before);
      AcceptedIsSpent(ttl, Run(ttl, before), events[k]);
    } else {
      AcceptedStaysSpent(ttl, events, k, n - 1);
      var i := AcceptedWasDrawn(ttl, events, k);
      assert IdOf(events[i]) != IdOf(events[n - 1]);
      StepKeepsSpent(ttl, Run(ttl, before), events[n - 1], OutcomeAt(ttl, events, k).id);
    }
  }

  /** No challenge is accepted twice. */
  lemma AcceptancesDiffer(ttl: nat, events: seq<Event>, j: nat, k: nat)
    requires FreshIds(events) && j < k < |events|
    requires OutcomeAt(ttl, events, j).Accepted? && OutcomeAt(ttl, events, k).Accepted?
    ensures OutcomeAt(ttl, events, j).id != OutcomeAt(ttl, events, k).id
  {
    hide Step, Spent;
    AcceptedStaysSpent(ttl, events, j, k);
    SpentIsNotAccepted(ttl, Run(ttl, events[..k]), events[k], OutcomeAt(ttl, events, j).id);
  }

  // ----- Accounting ----------------------------------------------------------------------

  function One(b: bool): nat {
    if b then 1 else 0
  }

  predicate IsAvailable(r: Record, request: Request) {
    r.request == request && r.granted && !r.consumed
  }

  function Available(records: Records, request: Request): nat {
    if records == [] then 0
    else Available(records[..|records| - 1], request) + One(IsAvailable(records[|records| - 1], request))
  }

  /** The event grants a challenge of the request. */
  predicate GrantsFor(ttl: nat, records: Records, e: Event, request: Request) {
    && e.Grant? && Step(ttl, records, e).1 == Granted
    && Find(records, e.id).Some? && records[Find(records, e.id).value].request == request
  }

  predicate AcceptsFor(ttl: nat, records: Records, e: Event, request: Request) {
    Step(ttl, records, e).1.Accepted? && HasRequest(e) && e.request == request
  }

  function GrantCount(ttl: nat, events: seq<Event>, request: Request): nat {
    if events == [] then 0 else
    var init := events[..|events| - 1];
    GrantCount(ttl, init, request) + One(GrantsFor(ttl, Run(ttl, init), events[|events| - 1], request))
  }

  function AcceptCount(ttl: nat, events: seq<Event>, request: Request): nat {
    if events == [] then 0 else
    var init := events[..|events| - 1];
    AcceptCount(ttl, init, request) + One(AcceptsFor(ttl, Run(ttl, init), events[|events| - 1], request))
  }

  lemma {:induction false} AvailableUpdate(records: Records, i: nat, r: Record, request: Request)
    requires i < |records|
    ensures Available(records[i := r], request) + One(IsAvailable(records[i], request))
         == Available(records, request) + One(IsAvailable(r, request))
  {
    var n := |records| - 1;
    if i == n {
      assert records[i := r][..n] == records[..n];
    } else {
      AvailableUpdate(records[..n], i, r, request);
      assert records[i := r][..n] == records[..n][i := r];
    }
  }

  lemma AvailableAppend(records: Records, r: Record, request: Request)
    ensures Available(records + [r], request) == Available(records, request) + One(IsAvailable(r, request))
  {
  }

  lemma {:induction false} AvailableRetained(records: Records, cutoff: int, request: Request)
    ensures Available(Retained(records, cutoff), request) <= Available(records, request)
  {
    if records != [] {
      var n := |records| - 1;
      AvailableRetained(records[..n], cutoff, request);
      AvailableAppend(Retained(records[..n], cutoff), records[n], request);
      assert Retained(records[..n], cutoff) + [] == Retained(records[..n], cutoff);
    }
  }

  lemma AvailablePut(records: Records, r: Record, request: Request)
    requires !r.granted
    ensures Available(Put(records, r), request) <= Available(records, request)
  {
    hide Find;
    match Find(records, r.id) {
      case None => AvailableAppend(records, r, request);
      case Some(i) => AvailableUpdate(records, i, r, request);
    }
  }

  /** A step's acceptances are paid for out of what was available, and only a grant adds to that. */
  lemma StepPays(ttl: nat, records: Records, e: Event, request: Request)
    ensures Available(Step(ttl, records, e).0, request) + One(AcceptsFor(ttl, records, e, request))
         <= Available(records, request) + One(GrantsFor(ttl, records, e, request))
  {
    hide Available, Find, FirstOpen, Retained, Put;
    if Step(ttl, records, e).1.Accepted? {
      var i := AcceptedRecord(ttl, records, e);
      AvailableUpdate(records, i, records[i].(consumed := true), request);
    } else {
      match e {
        case Challenge(r, id, now) => AvailablePut(records, Record(id, r, now + ttl, false, false), request);
        case Require(r, id, now) => AvailablePut(records, Record(id, r, now + ttl, false, false), request);
        case Cleanup(retain, now) => AvailableRetained(records, now - retain, request);
        case Consume(_, _, _) =>
        case Grant(id, _, _) =>
          if Find(records, id).Some? {
            var i := Find(records, id).value;
            AvailableUpdate(records, i, records[i].(granted := true), request);
          }
      }
    }
  }

  /** However challenges are issued, reused and cleaned up, a request is accepted at most as often as
      the owner granted it; what is still available is part of the account. */
  lemma {:induction false} AcceptancesWithinGrants(ttl: nat, events: seq<Event>, request: Request)
    ensures AcceptCount(ttl, events, request) + Available(Run(ttl, events), request) <= GrantCount(ttl, events, request)
  {
    hide Step, AcceptsFor, GrantsFor;
    if events != [] {
      AcceptancesWithinGrants(ttl, events[..|events| - 1], request);
      StepPays(ttl, Run(ttl, events[..|events| - 1]), events[|events| - 1], request);
    }
  }

  // ----- A granted challenge can be used -------------------------------------------------

  /** The challenge is on record, unused, and granted if that is asked for. */
  predicate OnRecord(records: Records, r: Record, granted: bool) {
    exists i :: 0 <= i < |records| && IsVersion(records[i], r, granted)
  }

  predicate IsVersion(s: Record, r: Record, granted: bool) {
    s.id == r.id && s.request == r.request && s.expires == r.expires && !s.consumed && (granted ==> s.granted)
  }

  /** The call neither uses the challenge up nor cleans it away, and draws another identifier. */
  predicate Spares(ttl: nat, events: seq<Event>, m: nat, r: Record)
    requires m < |events|
  {
    && OutcomeAt(ttl, events, m) != Accepted(r.id)
    && (events[m].Cleanup? ==> r.expires > events[m].now - events[m].retain)
    && IdOf(events[m]) != Some(r.id)
  }

  lemma StepKeepsOnRecord(ttl: nat, records: Records, e: Event, r: Record, granted: bool)
    requires UniqueIds(records) && OnRecord(records, r, granted)
    requires Step(ttl, records, e).1 != Accepted(r.id) && IdOf(e) != Some(r.id)
    requires e.Cleanup? ==> r.expires > e.now - e.retain
    ensures OnRecord(Step(ttl, records, e).0, r, granted)
  {
    hide Find, FirstOpen, Retained;
    var i :| 0 <= i < |records| && IsVersion(records[i], r, granted);
    var after := Step(ttl, records, e).0;
    if e.Cleanup? {
      RetainedMeans(records, e.now - e.retain);
      assert records[i] in after;
      var k :| 0 <= k < |after| && after[k] == records[i];
    } else {
      assert i < |after| && IsVersion(after[i], r, granted);
    }
  }

  lemma GrantPutsOnRecord(ttl: nat, records: Records, e: Event, r: Record)
    requires UniqueIds(records) && OnRecord(records, r, false)
    requires e.Grant? && e.id == r.id && e.interactive && e.now < r.expires
    ensures OnRecord(Step(ttl, records, e).0, r, true)
  {
    hide Find;
    FoundById(records, r.id);
    var i :| 0 <= i < |records| && IsVersion(records[i], r, false);
    assert records[i] in records;
    var k := Find(records, r.id).value;
    assert IsVersion(Step(ttl, records, e).0[k], r, true);
  }

  lemma IssuePutsOnRecord(ttl: nat, init: seq<Event>, e: Event, r: Record)
    requires IssuedAt(ttl, init + [e], |init|, r)
    ensures OnRecord(Run(ttl, init + [e]), r, false)
  {
    hide Run, FirstOpen, Find;
    RunNext(ttl, init, e);
    var before, after := Run(ttl, init), Run(ttl, init + [e]);
    var issued := Record(r.id, r.request, r.expires, false, false);
    RunHasUniqueIds(ttl, init);
    PutMeans(before, issued);
    assert issued in after;
    var k :| 0 <= k < |after| && after[k] == issued;
    assert IsVersion(after[k], r, false);
  }

  /** From the grant on, as long as every call spares it, a challenge stays on record and granted. */
  lemma {:induction false} StaysOnRecord(ttl: nat, events: seq<Event>, i: nat, g: nat, n: nat, r: Record)
    requires i < n <= |events| && i < g < |events| && IssuedAt(ttl, events, i, r)
    requires events[g].Grant? && events[g].id == r.id && events[g].interactive && events[g].now < r.expires
    requires forall m :: i < m < n ==> Spares(ttl, events, m, r)
    ensures OnRecord(Run(ttl, events[..n]), r, g < n)
  {
    hide Run, Step, OnRecord, UniqueIds;
    var before, e := events[..n - 1], events[n - 1];
    assert events[..n] == before + [e];
    RunNext(ttl, before, e);
    if n == i + 1 {
      IssuedInPrefix(ttl, events, i, r);
      IssuePutsOnRecord(ttl, before, e, r);
    } else {
      StaysOnRecord(ttl, events, i, g, n - 1, r);
      RunHasUniqueIds(ttl, before);
      if g == n - 1 {
        GrantPutsOnRecord(ttl, Run(ttl, before), e, r);
      } else {
        assert Spares(ttl, events, n - 1, r);
        StepKeepsOnRecord(ttl, Run(ttl, before), e, r, g < n - 1);
      }
    }
  }

  lemma IssuedInPrefix(ttl: nat, events: seq<Event>, i: nat, r: Record)
    requires i < |events| && IssuedAt(ttl, events, i, r)
    ensures IssuedAt(ttl, events[..i] + [events[i]], i, r)
  {
    hide Run, Step;
    assert (events[..i] + [events[i]])[..i] == events[..i];
  }

  /** A challenge that was issued, then granted in time, and spared since, is accepted until it expires: by its
      identifier, and whenever its request asks for approval. */
  lemma GrantedIsAccepted(ttl: nat, events: seq<Event>, i: nat, g: nat, k: nat, r: Record)
    requires i < g < k < |events| && IssuedAt(ttl, events, i, r)
    requires events[g].Grant? && events[g].id == r.id && events[g].interactive && events[g].now < r.expires
    requires forall m :: i < m < k ==> Spares(ttl, events, m, r)
    ensures events[k] == Consume(r.id, r.request, events[k].now) && events[k].now < r.expires ==>
              OutcomeAt(ttl, events, k) == Accepted(r.id)
    ensures events[k].Require? && events[k].request == r.request && events[k].now < r.expires ==>
              OutcomeAt(ttl, events, k).Accepted?
  {
    hide Run, Step, UniqueIds, IssuedAt, Accepts, Replaced;
    StaysOnRecord(ttl, events, i, g, k, r);
    var records := Run(ttl, events[..k]);
    RunHasUniqueIds(ttl, events[..k]);
    var m :| 0 <= m < |records| && IsVersion(records[m], r, true);
    assert records[m] in records;
    if events[k].Consume? {
      ConsumeIs(ttl, records, events[k].id, events[k].request, events[k].now);
    } else if events[k].Require? {
      RequireIs(ttl, records, events[k].request, events[k].id, events[k].now);
    }
  }
}
