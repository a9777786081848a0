/** The life of VPN access requests: the handlers that create, review and cancel
    them, the first sign-in that creates one, and background reconcile passes that
    interleave with all of these row by row. */
module AccessRequests {
  import opened Text
  import opened Schema
  import opened Collections
  import opened AccessLifecycle

  const MAX_ACTIVE: nat := 3

  /** Statuses that block a second request for the same server. */
  predicate Live(s: Status) {
    s == Pending || s == Processing || s == Failed || s == Approved
  }

  /** Statuses that count against the quota. */
  predicate Open(s: Status) {
    s == Pending || s == Processing || s == Failed
  }

  function LiveFor(requests: Requests, email: string, serverId: string): set<Id> {
    set id | id in requests && Live(requests[id].status) && requests[id].email == email && requests[id].serverId == serverId
  }

  function OpenOf(requests: Requests, email: string): set<Id> {
    set id | id in requests && Open(requests[id].status) && requests[id].email == email
  }

  // Creating a request ------------------------------------------------------

  datatype Reply =
    | Created(id: Id) | Invalid | HasAccessAlready | IsPending | IsProcessing | AwaitsRetry | TooMany

  /** The most recently created live request, as the ordered query returns it. */
  predicate IsLatest(requests: Requests, email: string, serverId: string, latest: Option<Id>) {
    match latest
    case None => LiveFor(requests, email, serverId) == {}
    case Some(id) =>
      && id in LiveFor(requests, email, serverId)
      && forall other :: other in LiveFor(requests, email, serverId) ==> requests[other].createdAt <= requests[id].createdAt
  }

  /** What POST answers on a table that has just been reconciled. An approved
      latest request without access falls through to the quota. */
  function PostReply(requests: Requests, users: Users, email: string, serverId: string, latest: Option<Id>, nextId: Id): Reply
    requires latest.Some? ==> latest.value in requests
  {
    if HasAccess(users, email, serverId) then HasAccessAlready
    else if latest.Some? && requests[latest.value].status == Pending then IsPending
    else if latest.Some? && requests[latest.value].status == Processing then IsProcessing
    else if latest.Some? && requests[latest.value].status == Failed then AwaitsRetry
    else if |OpenOf(requests, email)| >= MAX_ACTIVE then TooMany
    else Created(nextId)
  }

  function NewRequest(email: string, serverId: string, now: int): Request {
    Request(email, serverId, Pending, now, now, None)
  }

  class RequestRoutes {
    var store: RequestStore
    var nextId: Id

    constructor (store: RequestStore, nextId: Id)
      ensures this.store == store && this.nextId == nextId
    {
      this.store := store;
      this.nextId := nextId;
    }

    method FindLatest(email: string, serverId: string) returns (latest: Option<Id>)
      ensures IsLatest(store.requests, email, serverId, latest)
    {
      latest := None;
      var rest := LiveFor(store.requests, email, serverId);
      ghost var all := rest;
      while rest != {}
        invariant rest <= all == LiveFor(store.requests, email, serverId)
        invariant latest.None? ==> rest == all
        invariant latest.Some? ==> latest.value in all
        invariant latest.Some? ==> forall id :: id in all - rest ==> store.requests[id].createdAt <= store.requests[latest.value].createdAt
        decreases rest
      {
        var id :| id in rest;
        rest := rest - {id};
        if latest.None? || store.requests[latest.value].createdAt <= store.requests[id].createdAt {
          latest := Some(id);
        }
      }
    }

    /** POST: reconcile the caller's requests, validate, check, create. */
    method Post(email: string, serverId: string, valid: bool, now: int) returns (reply: Reply)
      modifies this, store
      ensures store == old(store) && store.users == old(store.users)
      ensures valid || reply == Invalid
      ensures var reconciled := Reconciled(old(store.requests), store.users, Some(email), now);
              if !valid then store.requests == reconciled && nextId == old(nextId)
              else exists latest ::
                && IsLatest(reconciled, email, serverId, latest)
                && reply == PostReply(reconciled, store.users, email, serverId, latest, old(nextId))
                && if reply.Created?
                   then store.requests == reconciled[old(nextId) := Request(email, serverId, Pending, now, now, None)]
                        && nextId == old(nextId) + 1
                   else store.requests == reconciled && nextId == old(nextId)
    {
      var _ := store.ReconcileAccessRequestLifecycle(Some(email), now);
      if !valid {
        return Invalid;
      }
      var latest := FindLatest(email, serverId);
      reply := PostReply(store.requests, store.users, email, serverId, latest, nextId);
      if reply.Created? {
        store.requests := store.requests[nextId := NewRequest(email, serverId, now)];
        nextId := nextId + 1;
      }
    }
  }

  // The state machine -------------------------------------------------------

  datatype Job = Job(id: Id, expected: Status)

  /** A reconcile pass between its steps: the rows it still has to try, from
      whatever snapshots it took, the row whose audit entry is due, and what it has
      counted, changed and audited so far. */
  datatype Pass = Pass(now: int, todo: seq<Job>, due: Option<Id>, orphaned: nat, stalePending: nat, staleFailed: nat,
                       changed: seq<Job>, audited: seq<Id>)

  datatype State = State(requests: Requests, users: Users, nextId: Id, passes: map<nat, Pass>)

  datatype Event =
    | Post(email: string, serverId: string, valid: bool, now: int, latest: Option<Id>)
    | FirstSignIn(email: string, serverId: string, now: int)
    | StartProvisioning(id: Id, now: int)
    | FinishProvisioning(id: Id, succeeded: bool, now: int)
    | Reject(id: Id, now: int)
    | Cancel(id: Id, email: string)
    | ChangeUsers(users: Users)
    | BeginPass(pass: nat, todo: seq<Job>, now: int)
    | UpdateRow(pass: nat)
    | WriteAudit(pass: nat)

  /** What a pass aims at. */
  predicate Expirable(s: Status) {
    s == Approved || s == Pending || s == Failed
  }

  /** Which events can happen. A first sign-in finds no live request for its e-mail
      and the default server, and room in the quota; server identifiers have no
      colon. */
  predicate Possible(s: State, e: Event) {
    match e
    case Post(email, serverId, _, now, latest) =>
      && NoColon(serverId)
      && IsLatest(Reconciled(s.requests, s.users, Some(email), now), email, serverId, latest)
    case FirstSignIn(email, serverId, _) =>
      NoColon(serverId) && LiveFor(s.requests, email, serverId) == {} && |OpenOf(s.requests, email)| < MAX_ACTIVE
    case ChangeUsers(users) => forall u :: u in users ==> NoColon(users[u].serverId)
    case BeginPass(pass, todo, _) => pass !in s.passes && forall j :: j in todo ==> Expirable(j.expected) && j.id < s.nextId
    case _ => true
  }

  function SetStatus(requests: Requests, id: Id, status: Status, now: int): Requests
    requires id in requests
  {
    requests[id := requests[id].(status := status, updatedAt := now)]
  }

  function CountUp(p: Pass, j: Job): Pass {
    match j.expected
    case Approved => p.(orphaned := p.orphaned + 1)
    case Pending => p.(stalePending := p.stalePending + 1)
    case _ => p.(staleFailed := p.staleFailed + 1)
  }

  /** The next row of a pass: an update that takes effect only if the row still
      has the status it was picked for. */
  function StepRow(requests: Requests, p: Pass): (Requests, Pass)
    requires p.todo != []
  {
    var j := p.todo[0];
    var rest := p.(todo := p.todo[1..]);
    if j.id in requests && requests[j.id].status == j.expected then
      (requests[j.id := ExpiredRow(requests[j.id], p.now)],
       CountUp(rest, j).(due := Some(j.id), changed := p.changed + [j]))
    else (requests, rest)
  }

  function Audited(p: Pass): Pass
    requires p.due.Some?
  {
    p.(due := None, audited := p.audited + [p.due.value])
  }

  /** A sign-in without a portal account creates one, and with it a request, whatever
      requests the e-mail has. */
  function SignedIn(s: State, email: string, serverId: string, now: int): State {
    s.(requests := s.requests[s.nextId := NewRequest(email, serverId, now)], nextId := s.nextId + 1)
  }

  function Step(s: State, e: Event): State
    requires Possible(s, e)
  {
    match e
    case Post(email, serverId, valid, now, latest) =>
      var reconciled := Reconciled(s.requests, s.users, Some(email), now);
      if valid && PostReply(reconciled, s.users, email, serverId, latest, s.nextId).Created?
      then s.(requests := reconciled[s.nextId := NewRequest(email, serverId, now)], nextId := s.nextId + 1)
      else s.(requests := reconciled)
    case FirstSignIn(email, serverId, now) => SignedIn(s, email, serverId, now)
    case StartProvisioning(id, now) =>
      if id in s.requests && (s.requests[id].status == Pending || s.requests[id].status == Failed)
      then s.(requests := SetStatus(s.requests, id, Processing, now)) else s
    case FinishProvisioning(id, succeeded, now) =>
      if id in s.requests && s.requests[id].status == Processing
      then s.(requests := SetStatus(s.requests, id, if succeeded then Approved else Failed, now)) else s
    case Reject(id, now) =>
      if id in s.requests && (s.requests[id].status == Pending || s.requests[id].status == Failed)
      then s.(requests := SetStatus(s.requests, id, Rejected, now)) else s
    case Cancel(id, email) =>
      if id in s.requests && s.requests[id].email == email && s.requests[id].status == Pending
      then s.(requests := s.requests - {id}) else s
    case ChangeUsers(users) => s.(users := users)
    case BeginPass(pass, todo, now) =>
      s.(passes := s.passes[pass := Pass(now, todo, None, 0, 0, 0, [], [])])
    case UpdateRow(pass) =>
      if pass in s.passes && s.passes[pass].due.None? && s.passes[pass].todo != [] then
        var (requests, p) := StepRow(s.requests, s.passes[pass]);
        s.(requests := requests, passes := s.passes[pass := p])
      else s
    case WriteAudit(pass) =>
      if pass in s.passes && s.passes[pass].due.Some? then
        s.(passes := s.passes[pass := Audited(s.passes[pass])])
      else s
  }

  function After(s: State, e: Event): State {
    if Possible(s, e) then Step(s, e) else s
  }

  /** From empty tables, ignoring events that cannot happen. */
  function Run(events: seq<Event>): State {
    if events == [] then State(map[], map[], 0, map[])
    else After(Run(events[..|events| - 1]), events[|events| - 1])
  }

  // At most one live request per e-mail and server ---------------------------

  ghost predicate Unique(requests: Requests) {
    forall a, b :: a in requests && b in requests && a != b && Live(requests[a].status) && Live(requests[b].status)
      ==> requests[a].email != requests[b].email || requests[a].serverId != requests[b].serverId
  }

  ghost predicate WithinQuota(requests: Requests) {
    forall email :: |OpenOf(requests, email)| <= MAX_ACTIVE
  }

  ghost predicate Good(s: State) {
    && Unique(s.requests) && WithinQuota(s.requests)
    && ColonFreeServers(s.requests, s.users)
    && forall id :: id in s.requests ==> id < s.nextId
  }

  /** Every row keeps its e-mail and server, and no row becomes live or open. */
  ghost predicate Subdued(before: Requests, after: Requests) {
    && after.Keys <= before.Keys
    && forall id :: id in after ==>
         && after[id].email == before[id].email && after[id].serverId == before[id].serverId
         && (Live(after[id].status) ==> Live(before[id].status))
         && (Open(after[id].status) ==> Open(before[id].status))
  }

  lemma SubduedIsGood(before: State, after: State)
    requires Good(before) && Subdued(before.requests, after.requests)
    requires after.nextId >= before.nextId && forall u :: u in after.users ==> NoColon(after.users[u].serverId)
    ensures Good(after)
  {
    forall email ensures |OpenOf(after.requests, email)| <= MAX_ACTIVE {
      SubsetSize(OpenOf(after.requests, email), OpenOf(before.requests, email));
    }
  }

  lemma ReconciledIsSubdued(requests: Requests, users: Users, filter: Option<string>, now: int)
    ensures Subdued(requests, Reconciled(requests, users, filter, now))
  {
    ReconciledMeaning(requests, users, filter, now);
  }

  /** When POST creates a request there is no live one for that pair: an approved
      latest request is ruled out because the reconcile before it has expired it. */
  lemma {:induction false} CreatedIsAlone(requests: Requests, users: Users, email: string, serverId: string, latest: Option<Id>,
                       now: int, nextId: Id)
    requires ColonFreeServers(requests, users)
    requires var r := Reconciled(requests, users, Some(email), now);
             && IsLatest(r, email, serverId, latest)
             && PostReply(r, users, email, serverId, latest, nextId).Created?
    ensures LiveFor(Reconciled(requests, users, Some(email), now), email, serverId) == {}
  {
    var r := Reconciled(requests, users, Some(email), now);
    ReconciledMeaning(requests, users, Some(email), now);
    if latest.Some? {
      var id := latest.value;
      if id in WithStatus(requests, Approved, Some(email)) {
        LostAccessIsOrphaned(requests, users, Some(email), id);
      }
      assert false;
    }
  }

  lemma OpenAfterAdding(requests: Requests, id: Id, email: string, serverId: string, now: int, e: string)
    requires id !in requests
    ensures id !in OpenOf(requests, e)
    ensures OpenOf(requests[id := NewRequest(email, serverId, now)], e)
            == OpenOf(requests, e) + if e == email then {id} else {}
  {
  }

  lemma AddingKeepsQuota(s: State, email: string, serverId: string, now: int)
    requires Good(s) && |OpenOf(s.requests, email)| < MAX_ACTIVE
    ensures WithinQuota(s.requests[s.nextId := NewRequest(email, serverId, now)])
  {
    hide OpenOf, NewRequest;
    var more := s.requests[s.nextId := NewRequest(email, serverId, now)];
    forall e ensures |OpenOf(more, e)| <= MAX_ACTIVE {
      OpenAfterAdding(s.requests, s.nextId, email, serverId, now, e);
    }
  }

  lemma AddingKeepsUnique(s: State, email: string, serverId: string, now: int)
    requires Good(s) && LiveFor(s.requests, email, serverId) == {}
    ensures Unique(s.requests[s.nextId := NewRequest(email, serverId, now)])
  {
    forall a | a in s.requests && Live(s.requests[a].status)
      ensures s.requests[a].email != email || s.requests[a].serverId != serverId
    {
      assert a !in LiveFor(s.requests, email, serverId);
    }
  }

  lemma AddingIsGood(s: State, email: string, serverId: string, now: int)
    requires Good(s) && NoColon(serverId)
    requires LiveFor(s.requests, email, serverId) == {} && |OpenOf(s.requests, email)| < MAX_ACTIVE
    ensures Good(s.(requests := s.requests[s.nextId := NewRequest(email, serverId, now)], nextId := s.nextId + 1))
  {
    hide OpenOf, LiveFor;
    AddingKeepsQuota(s, email, serverId, now);
    AddingKeepsUnique(s, email, serverId, now);
  }

  lemma SwitchIsGood(s: State, id: Id, status: Status, now: int)
    requires Good(s) && id in s.requests && Open(s.requests[id].status)
    ensures Good(s.(requests := SetStatus(s.requests, id, status, now)))
  {
    SubduedIsGood(s, s.(requests := SetStatus(s.requests, id, status, now)));
  }

  lemma PostKeepsGood(s: State, e: Event)
    requires Good(s) && e.Post? && Possible(s, e)
    ensures Good(Step(s, e))
  {
    var r := Reconciled(s.requests, s.users, Some(e.email), e.now);
    ReconciledIsSubdued(s.requests, s.users, Some(e.email), e.now);
    var t := s.(requests := r);
    SubduedIsGood(s, t);
    if e.valid && PostReply(r, s.users, e.email, e.serverId, e.latest, s.nextId).Created? {
      CreatedIsAlone(s.requests, s.users, e.email, e.serverId, e.latest, e.now, s.nextId);
      hide Reconciled;
      AddingIsGood(t, e.email, e.serverId, e.now);
    }
  }

  /** A first sign-in keeps uniqueness and the quota exactly when there is no live
      request for its e-mail and server, and fewer than three open ones. */
  lemma SignInKeepsGoodIff(s: State, email: string, serverId: string, now: int)
    requires Good(s) && NoColon(serverId)
    ensures Good(SignedIn(s, email, serverId, now))
            <==> LiveFor(s.requests, email, serverId) == {} && |OpenOf(s.requests, email)| < MAX_ACTIVE
  {
    var t := SignedIn(s, email, serverId, now);
    OpenAfterAdding(s.requests, s.nextId, email, serverId, now, email);
    hide OpenOf;
    if LiveFor(s.requests, email, serverId) == {} && |OpenOf(s.requests, email)| < MAX_ACTIVE {
      AddingIsGood(s, email, serverId, now);
    } else if id :| id in LiveFor(s.requests, email, serverId) {
      assert id in t.requests && s.nextId in t.requests && !Unique(t.requests);
    } else {
      assert |OpenOf(t.requests, email)| > MAX_ACTIVE;
    }
  }

  lemma StepKeepsGood(s: State, e: Event)
    requires Good(s) && Possible(s, e)
    ensures Good(Step(s, e))
  {
    hide Reconciled, OpenOf, LiveFor, Orphaned;
    match e {
      case Post(_, _, _, _, _) => PostKeepsGood(s, e);
      case FirstSignIn(email, serverId, now) => SignInKeepsGoodIff(s, email, serverId, now);
      case StartProvisioning(id, now) =>
        if id in s.requests && Open(s.requests[id].status) { SwitchIsGood(s, id, Processing, now); }
      case FinishProvisioning(id, succeeded, now) =>
        if id in s.requests && Open(s.requests[id].status) {
          SwitchIsGood(s, id, if succeeded then Approved else Failed, now);
        }
      case Reject(id, now) =>
        if id in s.requests && Open(s.requests[id].status) { SwitchIsGood(s, id, Rejected, now); }
      case _ =>
        SubduedIsGood(s, Step(s, e));
    }
  }

  /** In every reachable state there is at most one live request per e-mail and
      server, and at most three open ones per e-mail. */
  lemma {:induction false} UniquenessAndQuota(events: seq<Event>)
    ensures Good(Run(events))
  {
    if events == [] {
      forall email ensures OpenOf(Run([]).requests, email) == {} {
      }
    } else {
      var before := Run(events[..|events| - 1]);
      UniquenessAndQuota(events[..|events| - 1]);
      hide Step, Possible;
      if Possible(before, events[|events| - 1]) {
        StepKeepsGood(before, events[|events| - 1]);
      }
    }
  }

  /** In a reachable state POST creates a request exactly when the input is valid,
      there is no access, nothing blocks that pair, and the quota has room. */
  lemma {:induction false} PostCreatesIff(s: State, email: string, serverId: string, now: int, latest: Option<Id>)
    requires Good(s) && Possible(s, Post(email, serverId, true, now, latest))
    ensures var r := Reconciled(s.requests, s.users, Some(email), now);
            PostReply(r, s.users, email, serverId, latest, s.nextId).Created?
            <==> && !HasAccess(s.users, email, serverId)
                 && LiveFor(r, email, serverId) == {}
                 && |OpenOf(r, email)| < MAX_ACTIVE
  {
    var r := Reconciled(s.requests, s.users, Some(email), now);
    if PostReply(r, s.users, email, serverId, latest, s.nextId).Created? {
      CreatedIsAlone(s.requests, s.users, email, serverId, latest, now, s.nextId);
    }
  }

  /** Some request of the pair has that status. */
  ghost predicate Has(requests: Requests, email: string, serverId: string, status: Status) {
    exists id :: id in requests && requests[id].email == email && requests[id].serverId == serverId && requests[id].status == status
  }

  /** With one live request per pair, the latest one is it. */
  lemma LatestIsTheOne(requests: Requests, email: string, serverId: string, latest: Option<Id>, status: Status)
    requires Unique(requests) && IsLatest(requests, email, serverId, latest)
    requires status in {Pending, Processing, Failed, Approved}
    ensures Has(requests, email, serverId, status) <==> latest.Some? && requests[latest.value].status == status
  {
    if Has(requests, email, serverId, status) {
      var id :| id in requests && requests[id].email == email && requests[id].serverId == serverId && requests[id].status == status;
      assert id in LiveFor(requests, email, serverId);
    }
  }

  /** What POST answers to valid input on a reconciled table: access comes first, then
      the live request of the pair, then the quota of three; exactly when none of these
      stands in the way a request is created. */
  ghost predicate AnswersFor(r: Requests, users: Users, email: string, serverId: string, nextId: Id, reply: Reply) {
    var access := exists u :: u in users && users[u].email == email && users[u].serverId == serverId && users[u].isEnabled;
    var counted := (set id | id in r && r[id].email == email && r[id].status in {Pending, Processing, Failed});
    var blocked := exists status :: status in {Pending, Processing, Failed} && Has(r, email, serverId, status);
    && (reply == HasAccessAlready <==> access)
    && (reply == IsPending <==> !access && Has(r, email, serverId, Pending))
    && (reply == IsProcessing <==> !access && Has(r, email, serverId, Processing))
    && (reply == AwaitsRetry <==> !access && Has(r, email, serverId, Failed))
    && (reply == TooMany <==> !access && !blocked && |counted| >= 3)
    && (reply == Created(nextId) <==> !access && !blocked && |counted| < 3)
  }

  /** So it does in every reachable state, whatever order the query returns. */
  lemma {:induction false} PostAnswersIff(s: State, email: string, serverId: string, now: int, latest: Option<Id>)
    requires Good(s) && Possible(s, Post(email, serverId, true, now, latest))
    ensures var r := Reconciled(s.requests, s.users, Some(email), now);
            AnswersFor(r, s.users, email, serverId, s.nextId, PostReply(r, s.users, email, serverId, latest, s.nextId))
  {
    hide Reconciled, Has, Unique, IsLatest, ColonFreeServers, LiveFor, HasAccess;
    var r := Reconciled(s.requests, s.users, Some(email), now);
    ReconciledIsUnique(s, email, now);
    AccessMeans(s.users, email, serverId);
    LatestIsTheOne(r, email, serverId, latest, Pending);
    LatestIsTheOne(r, email, serverId, latest, Processing);
    LatestIsTheOne(r, email, serverId, latest, Failed);
    LatestIsTheOne(r, email, serverId, latest, Approved);
    OpenMeans(r, email);
    if !HasAccess(s.users, email, serverId) {
      NoApprovedWithoutAccess(s.requests, s.users, email, serverId, now);
    }
  }

  lemma ReconciledIsUnique(s: State, email: string, now: int)
    requires Good(s)
    ensures Unique(Reconciled(s.requests, s.users, Some(email), now))
  {
    hide Reconciled;
    ReconciledIsSubdued(s.requests, s.users, Some(email), now);
  }

  lemma OpenMeans(requests: Requests, email: string)
    ensures OpenOf(requests, email)
            == set id | id in requests && requests[id].email == email && requests[id].status in {Pending, Processing, Failed}
  {
  }

  lemma NoApprovedWithoutAccess(requests: Requests, users: Users, email: string, serverId: string, now: int)
    requires ColonFreeServers(requests, users) && !HasAccess(users, email, serverId)
    ensures !Has(Reconciled(requests, users, Some(email), now), email, serverId, Approved)
  {
    hide Reconciled, HasAccess, Orphaned;
    var r := Reconciled(requests, users, Some(email), now);
    ReconciledMeaning(requests, users, Some(email), now);
    if id :| id in r && r[id].email == email && r[id].serverId == serverId && r[id].status == Approved {
      LostAccessIsOrphaned(requests, users, Some(email), id);
    }
  }

  /** The reconcile is needed: without it an approved request whose access is gone
      lets a second live request in. */
  lemma WithoutReconcileNotUnique()
    ensures var requests := map[0 := Request("a", "s", Approved, 0, 0, None)];
            && Unique(requests) && IsLatest(requests, "a", "s", Some(0))
            && PostReply(requests, map[], "a", "s", Some(0), 1) == Created(1)
            && !Unique(requests[1 := NewRequest("a", "s", 0)])
  {
    var requests := map[0 := Request("a", "s", Approved, 0, 0, None)];
    var more := requests[1 := NewRequest("a", "s", 0)];
    assert OpenOf(requests, "a") == {};
    assert LiveFor(requests, "a", "s") == {0};
    assert 0 in more && 1 in more && more[0].email == more[1].email;
  }

  /** So is the condition on first sign-ins: a portal account that is deleted after
      its first sign-in and signs in again gets a second live request. */
  lemma SecondFirstSignInNotUnique(email: string, serverId: string, now: int)
    requires NoColon(serverId)
    ensures var once := Run([FirstSignIn(email, serverId, now)]);
            once.requests.Keys == {0} && Good(once) && !Good(SignedIn(once, email, serverId, now))
  {
    var start := State(map[], map[], 0, map[]);
    var events := [FirstSignIn(email, serverId, now)];
    assert events[..0] == [];
    assert Run([]) == start;
    assert LiveFor(start.requests, email, serverId) == {} && OpenOf(start.requests, email) == {};
    var once := Run(events);
    assert once == SignedIn(start, email, serverId, now);
    UniquenessAndQuota(events);
    assert 0 in LiveFor(once.requests, email, serverId);
    SignInKeepsGoodIff(once, email, serverId, now);
  }

  // Reconcile passes under interleaving --------------------------------------

  /** The books of a pass: its three counts together are the number of rows it has
      changed, each audited once or just about to be; every one of those rows is
      still there, expired, and no row was changed twice. */
  ghost predicate Balanced(s: State, p: Pass) {
    && p.orphaned + p.stalePending + p.staleFailed == |p.changed|
    && |p.audited| + (if p.due.Some? then 1 else 0) == |p.changed|
    && (forall i :: 0 <= i < |p.audited| ==> p.audited[i] == p.changed[i].id)
    && (p.due.Some? ==> p.due.value == p.changed[|p.changed| - 1].id)
    && (forall i :: 0 <= i < |p.changed| ==>
          && Expirable(p.changed[i].expected)
          && p.changed[i].id in s.requests && s.requests[p.changed[i].id].status == Expired)
    && (forall i, j :: 0 <= i < j < |p.changed| ==> p.changed[i].id != p.changed[j].id)
    && (forall j :: j in p.todo ==> Expirable(j.expected))
  }

  ghost predicate AllBalanced(s: State) {
    forall pass :: pass in s.passes ==> Balanced(s, s.passes[pass])
  }

  /** Expired rows stay, and stay expired, whoever acts. */
  lemma ExpiredIsFinal(s: State, e: Event, id: Id)
    requires Good(s) && Possible(s, e)
    requires id in s.requests && s.requests[id].status == Expired
    ensures id in Step(s, e).requests && Step(s, e).requests[id].status == Expired
  {
    hide Reconciled, OpenOf, LiveFor, Orphaned, StalePending, StaleFailed;
    if e.Post? {
      ReconciledKeepsExpired(s.requests, s.users, Some(e.email), e.now, id);
    }
  }

  lemma ReconciledKeepsExpired(requests: Requests, users: Users, filter: Option<string>, now: int, id: Id)
    requires id in requests && requests[id].status == Expired
    ensures id in Reconciled(requests, users, filter, now)
    ensures Reconciled(requests, users, filter, now)[id] == requests[id]
  {
    ReconciledMeaning(requests, users, filter, now);
  }

  /** A row update of a pass moves at most the one row it aims at, only out of the
      status that row was picked for, and only to EXPIRED: never a request that is
      being provisioned, rejected or expired. */
  lemma PassMovesOnlyWhatItPicked(s: State, pass: nat, id: Id)
    requires AllBalanced(s) && id in s.requests
    ensures var after := Step(s, UpdateRow(pass)).requests;
            && after.Keys == s.requests.Keys
            && (after[id] != s.requests[id] ==>
                  && pass in s.passes && s.passes[pass].todo != []
                  && s.passes[pass].todo[0] == Job(id, s.requests[id].status)
                  && after[id].status == Expired
                  && s.requests[id].status !in {Processing, Rejected, Expired})
  {
  }

  /** The life of one request, whatever event happens: who takes it where. Only its
      owner removes it, while it is PENDING; provisioning and review take it through
      PROCESSING, APPROVED, FAILED and REJECTED; a reconcile or a pass expires it; and
      its e-mail, server and time of creation never change. */
  ghost predicate LivesOn(before: Request, id: Id, e: Event, t: Requests) {
    && (id !in t <==> e.Cancel? && e.id == id && e.email == before.email && before.status == Pending)
    && (id in t ==>
          && t[id].email == before.email && t[id].serverId == before.serverId && t[id].createdAt == before.createdAt
          && (t[id].status == before.status ==> t[id] == before)
          && ((e.StartProvisioning? || e.FinishProvisioning? || e.Reject?) && t[id].status != before.status
              ==> t[id] == before.(status := t[id].status, updatedAt := e.now))
          && (t[id].status == Processing != before.status
              <==> e.StartProvisioning? && e.id == id && before.status in {Pending, Failed})
          && (t[id].status == Approved != before.status
              <==> e.FinishProvisioning? && e.id == id && e.succeeded && before.status == Processing)
          && (t[id].status == Failed != before.status
              <==> e.FinishProvisioning? && e.id == id && !e.succeeded && before.status == Processing)
          && (t[id].status == Rejected != before.status
              <==> e.Reject? && e.id == id && before.status in {Pending, Failed})
          && (t[id].status == Pending ==> before.status == Pending)
          && (t[id].status == Expired != before.status ==>
                before.status in {Pending, Failed, Approved} && (e.UpdateRow? || (e.Post? && (e.email == before.email || e.email == "")))))
  }

  /** So it does, whatever event happens in a reachable state. */
  lemma {:induction false} LifeOfRequest(s: State, e: Event, id: Id)
    requires Good(s) && AllBalanced(s) && Possible(s, e) && id in s.requests
    ensures LivesOn(s.requests[id], id, e, Step(s, e).requests)
  {
    hide Reconciled, Good, OpenOf, LiveFor, IsLatest, HasAccess, AllBalanced, StepRow;
    IdIsOld(s, id);
    if e.Post? {
      PostLeavesRow(s, e, id);
    } else if e.UpdateRow? {
      PassLeavesRow(s, e.pass, id);
    }
  }

  /** A request is born PENDING and unreviewed, by POST or by a first sign-in, and
      is the next row. */
  lemma BornPending(s: State, e: Event, id: Id)
    requires Good(s) && Possible(s, e)
    requires id !in s.requests && id in Step(s, e).requests
    ensures id == s.nextId && Step(s, e).nextId == id + 1
    ensures (e.Post? && e.valid) || e.FirstSignIn?
    ensures Step(s, e).requests[id] == Request(e.email, e.serverId, Pending, e.now, e.now, None)
  {
    hide Reconciled, Good, OpenOf, LiveFor, IsLatest, HasAccess, StepRow;
    if e.Post? {
      ReconciledMeaning(s.requests, s.users, Some(e.email), e.now);
    } else if e.UpdateRow? {
      RowKeepsKeys(s, e.pass);
    }
  }

  /** POST leaves the reconciled table, with the new row exactly when it answers that one
      was created; a first sign-in adds its row and nothing else. */
  lemma CreationTakesEffect(s: State, e: Event)
    requires Possible(s, e) && (e.Post? || e.FirstSignIn?)
    ensures var t := Step(s, e);
            var row := Request(e.email, e.serverId, Pending, e.now, e.now, None);
            match e
            case Post(email, serverId, valid, now, latest) =>
              var r := Reconciled(s.requests, s.users, Some(email), now);
              if valid && PostReply(r, s.users, email, serverId, latest, s.nextId) == Created(s.nextId)
              then t == s.(requests := r[s.nextId := row], nextId := s.nextId + 1)
              else t == s.(requests := r)
            case _ => t == s.(requests := s.requests[s.nextId := row], nextId := s.nextId + 1)
  {
    hide Reconciled, OpenOf, LiveFor, HasAccess;
  }

  lemma RowKeepsKeys(s: State, pass: nat)
    ensures Step(s, UpdateRow(pass)).requests.Keys == s.requests.Keys
  {
  }

  lemma IdIsOld(s: State, id: Id)
    requires Good(s) && id in s.requests
    ensures id != s.nextId
  {
  }

  lemma PassLeavesRow(s: State, pass: nat, id: Id)
    requires AllBalanced(s) && id in s.requests
    ensures var (before, t) := (s.requests[id], Step(s, UpdateRow(pass)).requests);
            && id in t
            && (t[id] == before || (before.status in {Pending, Failed, Approved}
                                    && exists now :: t[id] == ExpiredRow(before, now)))
  {
    if pass in s.passes && s.passes[pass].todo != [] {
      assert s.passes[pass].todo[0] in s.passes[pass].todo;
      if s.passes[pass].due.None? && s.passes[pass].todo[0].id == id && s.requests[id].status == s.passes[pass].todo[0].expected {
        assert Step(s, UpdateRow(pass)).requests[id] == ExpiredRow(s.requests[id], s.passes[pass].now);
      }
    }
  }

  lemma PostLeavesRow(s: State, e: Event, id: Id)
    requires Good(s) && e.Post? && Possible(s, e) && id in s.requests
    ensures var (before, t) := (s.requests[id], Step(s, e).requests);
            && id in t
            && (t[id] == before
                || (t[id] == ExpiredRow(before, e.now) && (e.email == before.email || e.email == "")
                    && before.status in {Pending, Failed, Approved}))
  {
    hide Reconciled, Orphaned, IsLatest, ColonFreeServers, WithinQuota, Unique;
    ReconciledMeaning(s.requests, s.users, Some(e.email), e.now);
    PickedAreOwn(s.requests, s.users, e.email, e.now);
  }

  lemma PickedAreOwn(requests: Requests, users: Users, email: string, now: int)
    ensures forall id :: id in Orphaned(requests, users, Some(email)) + StalePending(requests, Some(email), now)
                               + StaleFailed(requests, Some(email), now)
              ==> id in requests && requests[id].status in {Pending, Failed, Approved} && (email == "" || requests[id].email == email)
  {
    OrphansAreApproved(requests, users, Some(email));
  }

  lemma RowStepKeepsBooks(s: State, pass: nat)
    requires Good(s) && AllBalanced(s)
    requires pass in s.passes && s.passes[pass].due.None? && s.passes[pass].todo != []
    ensures Balanced(Step(s, UpdateRow(pass)), Step(s, UpdateRow(pass)).passes[pass])
  {
    var p := s.passes[pass];
    var j := p.todo[0];
    assert j in p.todo;
    assert forall x :: x in p.todo[1..] ==> x in p.todo;
    var q := Step(s, UpdateRow(pass)).passes[pass];
    if j.id in s.requests && s.requests[j.id].status == j.expected {
      assert q.changed == p.changed + [j];
    }
  }

  lemma OthersKeepBooks(s: State, e: Event, pass: nat)
    requires Good(s) && AllBalanced(s) && Possible(s, e)
    requires pass in s.passes && Step(s, e).passes[pass] == s.passes[pass]
    ensures Balanced(Step(s, e), s.passes[pass])
  {
    hide Step, Possible, Good;
    var p := s.passes[pass];
    forall i | 0 <= i < |p.changed|
      ensures p.changed[i].id in Step(s, e).requests && Step(s, e).requests[p.changed[i].id].status == Expired
    {
      ExpiredIsFinal(s, e, p.changed[i].id);
    }
  }

  lemma AuditKeepsBooks(s: State, pass: nat)
    requires AllBalanced(s) && pass in s.passes && s.passes[pass].due.Some?
    ensures Balanced(Step(s, WriteAudit(pass)), Step(s, WriteAudit(pass)).passes[pass])
  {
    assert Balanced(s, s.passes[pass]);
  }

  lemma StepKeepsBooks(s: State, e: Event)
    requires Good(s) && AllBalanced(s) && Possible(s, e)
    ensures AllBalanced(Step(s, e))
  {
    hide Reconciled, OpenOf, LiveFor, Good, StepRow;
    var t := Step(s, e);
    forall pass | pass in t.passes ensures Balanced(t, t.passes[pass]) {
      if pass in s.passes && t.passes[pass] == s.passes[pass] {
        OthersKeepBooks(s, e, pass);
      } else if e == UpdateRow(pass) {
        RowStepKeepsBooks(s, pass);
      } else if e == WriteAudit(pass) {
        AuditKeepsBooks(s, pass);
      }
    }
  }

  /** In every reachable state, under any interleaving, the books of all passes
      balance: counts, changed rows and audit entries agree. */
  lemma {:induction false} PassesBalance(events: seq<Event>)
    ensures AllBalanced(Run(events))
  {
    if events != [] {
      var before := Run(events[..|events| - 1]);
      PassesBalance(events[..|events| - 1]);
      UniquenessAndQuota(events[..|events| - 1]);
      hide Step, Possible, Good;
      if Possible(before, events[|events| - 1]) {
        StepKeepsBooks(before, events[|events| - 1]);
      }
    }
  }

  /** A finished pass: as many rows changed, and as many audit entries, as it reports. */
  lemma {:induction false} FinishedPass(events: seq<Event>, pass: nat)
    requires pass in Run(events).passes
    requires Run(events).passes[pass].todo == [] && Run(events).passes[pass].due.None?
    ensures var p := Run(events).passes[pass];
            |ChangedRows(p)| == |p.audited| == p.orphaned + p.stalePending + p.staleFailed
  {
    PassesBalance(events);
    DistinctSize(IdsOf(Run(events).passes[pass].changed));
  }

  function IdsOf(jobs: seq<Job>): (ids: seq<Id>)
    ensures |ids| == |jobs| && forall i :: 0 <= i < |ids| ==> ids[i] == jobs[i].id
  {
    seq(|jobs|, i requires 0 <= i < |jobs| => jobs[i].id)
  }

  ghost function ChangedRows(p: Pass): set<Id> {
    Elements(IdsOf(p.changed))
  }

  lemma NotAmongElements(ids: seq<Id>, id: Id)
    requires id !in ids
    ensures id !in Elements(ids)
  {
  }

  lemma {:induction false} DistinctSize(ids: seq<Id>)
    requires NoRepeats(ids)
    ensures |Elements(ids)| == |ids|
  {
    if ids != [] {
      hide Elements;
      var (front, last) := (ids[..|ids| - 1], ids[|ids| - 1]);
      DistinctSize(front);
      ElementsAppend(front, last);
      assert ids == front + [last];
      NotAmongElements(front, last);
    }
  }

  // A pass that nothing interrupts -------------------------------------------

  /** The pass takes all its remaining steps in a row. */
  function Finished(s: State, pass: nat): State
    requires pass in s.passes
    decreases |s.passes[pass].todo|, if s.passes[pass].due.Some? then 1 else 0
  {
    if s.passes[pass].due.Some? then Finished(Step(s, WriteAudit(pass)), pass)
    else if s.passes[pass].todo != [] then Finished(Step(s, UpdateRow(pass)), pass)
    else s
  }

  /** The same on the table and the pass only. */
  function Alone(requests: Requests, p: Pass): (Requests, Pass)
    decreases |p.todo|, if p.due.Some? then 1 else 0
  {
    if p.due.Some? then Alone(requests, Audited(p))
    else if p.todo != [] then
      var (after, q) := StepRow(requests, p);
      Alone(after, q)
    else (requests, p)
  }

  lemma {:induction false} FinishedIsAlone(s: State, pass: nat)
    requires pass in s.passes
    ensures var (requests, p) := Alone(s.requests, s.passes[pass]);
            Finished(s, pass) == s.(requests := requests, passes := s.passes[pass := p])
    decreases |s.passes[pass].todo|, if s.passes[pass].due.Some? then 1 else 0
  {
    hide StepRow;
    var p := s.passes[pass];
    if p.due.Some? {
      FinishedIsAlone(Step(s, WriteAudit(pass)), pass);
    } else if p.todo != [] {
      RowShortens(s.requests, p);
      FinishedIsAlone(Step(s, UpdateRow(pass)), pass);
    } else {
      assert s.passes == s.passes[pass := p];
    }
  }

  lemma RowShortens(requests: Requests, p: Pass)
    requires p.todo != []
    ensures StepRow(requests, p).1.todo == p.todo[1..]
  {
  }

  /** Every row to be tried has the status it was picked for, and is tried once. */
  ghost predicate Ready(requests: Requests, todo: seq<Job>) {
    && (forall j :: j in todo ==> j.id in requests && requests[j.id].status == j.expected && Expirable(j.expected))
    && NoRepeats(IdsOf(todo))
  }

  ghost predicate JustExpired(before: Requests, after: Requests, ids: set<Id>, now: int) {
    && after.Keys == before.Keys
    && forall id :: id in before ==> after[id] == if id in ids then ExpiredRow(before[id], now) else before[id]
  }

  function CountOf(todo: seq<Job>, status: Status): nat {
    if todo == [] then 0 else (if todo[0].expected == status then 1 else 0) + CountOf(todo[1..], status)
  }

  /** A pass with all its rows changed and audited. */
  function Completed(p: Pass): Pass {
    Pass(p.now, [], None, p.orphaned + CountOf(p.todo, Approved), p.stalePending + CountOf(p.todo, Pending),
         p.staleFailed + CountOf(p.todo, Failed), p.changed + p.todo, p.audited + IdsOf(p.todo))
  }

  /** The pass behind its first row and the audit entry of that row. */
  function OneRowOn(p: Pass): Pass
    requires p.todo != []
  {
    var j := p.todo[0];
    CountUp(p, j).(todo := p.todo[1..], changed := p.changed + [j], audited := p.audited + [j.id])
  }

  lemma AloneByRow(requests: Requests, p: Pass)
    requires p.due.None? && p.todo != []
    ensures Alone(requests, p) == Alone(StepRow(requests, p).0, StepRow(requests, p).1)
  {
    hide StepRow;
    RowShortens(requests, p);
  }

  lemma AloneByAudit(requests: Requests, p: Pass)
    requires p.due.Some?
    ensures Alone(requests, p) == Alone(requests, Audited(p))
  {
    hide StepRow;
  }

  lemma OneRow(requests: Requests, p: Pass)
    requires p.due.None? && p.todo != []
    requires p.todo[0].id in requests && requests[p.todo[0].id].status == p.todo[0].expected
    ensures Alone(requests, p) == Alone(requests[p.todo[0].id := ExpiredRow(requests[p.todo[0].id], p.now)], OneRowOn(p))
  {
    hide ExpiredRow, Alone;
    var (after, q) := StepRow(requests, p);
    AloneByRow(requests, p);
    AloneByAudit(after, q);
    assert Audited(q) == OneRowOn(p);
  }

  lemma CompletedStep(p: Pass)
    requires p.due.None? && p.todo != [] && Expirable(p.todo[0].expected)
    requires IdsOf(p.todo) == [p.todo[0].id] + IdsOf(p.todo[1..])
    ensures Completed(OneRowOn(p)) == Completed(p)
  {
    hide IdsOf;
    var j := p.todo[0];
    assert p.changed + [j] + p.todo[1..] == p.changed + p.todo;
    assert p.audited + [j.id] + IdsOf(p.todo[1..]) == p.audited + IdsOf(p.todo);
  }

  lemma IdsOfRest(todo: seq<Job>)
    requires todo != [] && NoRepeats(IdsOf(todo))
    ensures IdsOf(todo) == [todo[0].id] + IdsOf(todo[1..])
    ensures NoRepeats(IdsOf(todo[1..])) && todo[0].id !in IdsOf(todo[1..])
  {
    var (ids, rest) := (IdsOf(todo), IdsOf(todo[1..]));
    assert forall k :: 0 <= k < |rest| ==> rest[k] == ids[k + 1];
    assert ids == [todo[0].id] + rest;
  }

  lemma JobInIds(todo: seq<Job>, j: Job)
    requires j in todo
    ensures j.id in IdsOf(todo)
  {
    var k :| 0 <= k < |todo| && todo[k] == j;
    assert IdsOf(todo)[k] == j.id;
  }

  lemma StillReady(requests: Requests, todo: seq<Job>, now: int)
    requires todo != [] && Ready(requests, todo)
    ensures todo[0].id in requests && requests[todo[0].id].status == todo[0].expected && Expirable(todo[0].expected)
    ensures Ready(requests[todo[0].id := ExpiredRow(requests[todo[0].id], now)], todo[1..])
    ensures IdsOf(todo) == [todo[0].id] + IdsOf(todo[1..]) && todo[0].id !in IdsOf(todo[1..])
  {
    hide ExpiredRow, Expirable, NoRepeats, IdsOf;
    assert todo[0] in todo;
    IdsOfRest(todo);
    forall j | j in todo[1..] ensures j in todo && j.id != todo[0].id {
      JobInIds(todo[1..], j);
    }
  }

  lemma ExpiredFirst(before: Requests, after: Requests, first: Id, ids: seq<Id>, now: int)
    requires first in before && first !in ids
    requires JustExpired(before[first := ExpiredRow(before[first], now)], after, Elements(ids), now)
    ensures JustExpired(before, after, Elements([first] + ids), now)
  {
    hide ExpiredRow;
    assert Elements([first] + ids) == {first} + Elements(ids);
  }

  /** Alone, a pass expires just the rows it picked and completes its books. */
  lemma {:induction false} PassAlone(requests: Requests, p: Pass)
    requires p.due.None? && Ready(requests, p.todo)
    ensures Alone(requests, p).1 == Completed(p)
    ensures JustExpired(requests, Alone(requests, p).0, Elements(IdsOf(p.todo)), p.now)
    decreases |p.todo|
  {
    hide Ready, JustExpired, Elements, ExpiredRow, StepRow;
    if p.todo == [] {
      NothingToDo(requests, p);
    } else {
      hide Completed, Alone;
      var j := p.todo[0];
      StillReady(requests, p.todo, p.now);
      OneRow(requests, p);
      PassAlone(requests[j.id := ExpiredRow(requests[j.id], p.now)], OneRowOn(p));
      CompletedStep(p);
      ExpiredFirst(requests, Alone(requests, p).0, j.id, IdsOf(p.todo[1..]), p.now);
    }
  }

  lemma NothingToDo(requests: Requests, p: Pass)
    requires p.due.None? && p.todo == []
    ensures Alone(requests, p).1 == Completed(p)
    ensures JustExpired(requests, Alone(requests, p).0, Elements(IdsOf(p.todo)), p.now)
  {
    assert Completed(p) == p;
  }

  function JobsOf(ids: seq<Id>, expected: Status): seq<Job> {
    seq(|ids|, i requires 0 <= i < |ids| => Job(ids[i], expected))
  }

  lemma {:induction false} CountOfJobs(ids: seq<Id>, expected: Status, status: Status)
    ensures CountOf(JobsOf(ids, expected), status) == if status == expected then |ids| else 0
  {
    if ids != [] {
      CountOfJobs(ids[1..], expected, status);
      assert JobsOf(ids, expected)[1..] == JobsOf(ids[1..], expected);
    }
  }

  lemma {:induction false} CountOfBoth(a: seq<Job>, b: seq<Job>, status: Status)
    ensures CountOf(a + b, status) == CountOf(a, status) + CountOf(b, status)
  {
    if a == [] {
      assert a + b == b;
    } else {
      CountOfBoth(a[1..], b, status);
      assert (a + b)[1..] == a[1..] + b;
    }
  }

  /** The rows of the three picks, in the order of a pass. */
  function Picks(orphaned: seq<Id>, stalePending: seq<Id>, staleFailed: seq<Id>): seq<Job> {
    JobsOf(orphaned, Approved) + JobsOf(stalePending, Pending) + JobsOf(staleFailed, Failed)
  }

  lemma CountOfPicks(orphaned: seq<Id>, stalePending: seq<Id>, staleFailed: seq<Id>, status: Status)
    ensures CountOf(Picks(orphaned, stalePending, staleFailed), status)
            == if status == Approved then |orphaned|
               else if status == Pending then |stalePending|
               else if status == Failed then |staleFailed| else 0
  {
    CountOfBoth(JobsOf(orphaned, Approved) + JobsOf(stalePending, Pending), JobsOf(staleFailed, Failed), status);
    CountOfBoth(JobsOf(orphaned, Approved), JobsOf(stalePending, Pending), status);
    CountOfJobs(orphaned, Approved, status);
    CountOfJobs(stalePending, Pending, status);
    CountOfJobs(staleFailed, Failed, status);
  }

  /** The lists of a pass: the three picks, each row once, in any order. */
  ghost predicate ListsPicks(s: State, filter: Option<string>, now: int, orphaned: seq<Id>, stalePending: seq<Id>,
                             staleFailed: seq<Id>) {
    && NoRepeats(orphaned) && NoRepeats(stalePending) && NoRepeats(staleFailed)
    && Elements(orphaned) == Orphaned(s.requests, s.users, filter)
    && Elements(stalePending) == StalePending(s.requests, filter, now)
    && Elements(staleFailed) == StaleFailed(s.requests, filter, now)
  }

  lemma IdsOfPicks(orphaned: seq<Id>, stalePending: seq<Id>, staleFailed: seq<Id>)
    ensures IdsOf(Picks(orphaned, stalePending, staleFailed)) == orphaned + stalePending + staleFailed
  {
  }

  lemma JobOfPicks(orphaned: seq<Id>, stalePending: seq<Id>, staleFailed: seq<Id>, j: Job)
    requires j in Picks(orphaned, stalePending, staleFailed)
    ensures || (j.expected == Approved && j.id in orphaned)
            || (j.expected == Pending && j.id in stalePending)
            || (j.expected == Failed && j.id in staleFailed)
  {
  }

  lemma PicksAreReady(s: State, filter: Option<string>, now: int, orphaned: seq<Id>, stalePending: seq<Id>, staleFailed: seq<Id>)
    requires ListsPicks(s, filter, now, orphaned, stalePending, staleFailed)
    ensures Ready(s.requests, Picks(orphaned, stalePending, staleFailed))
  {
    hide Picks, NoRepeats;
    var todo := Picks(orphaned, stalePending, staleFailed);
    IdsOfPicks(orphaned, stalePending, staleFailed);
    assert forall id :: id in orphaned ==> id in Elements(orphaned);
    assert forall id :: id in stalePending ==> id in Elements(stalePending);
    assert forall id :: id in staleFailed ==> id in Elements(staleFailed);
    forall j | j in todo ensures j.id in s.requests && s.requests[j.id].status == j.expected && Expirable(j.expected) {
      JobOfPicks(orphaned, stalePending, staleFailed, j);
    }
    JoinedWithoutRepeats(orphaned, stalePending);
    JoinedWithoutRepeats(orphaned + stalePending, staleFailed);
  }

  /** The row-by-row pass refines the reconcile: begun with the three picks and not
      interrupted, it ends in the reconciled table, with the counts of the reconcile
      and one audit entry for each picked row. */
  lemma {:induction false} UninterruptedPass(s: State, pass: nat, filter: Option<string>, now: int,
                                             orphaned: seq<Id>, stalePending: seq<Id>, staleFailed: seq<Id>)
    requires Good(s) && pass !in s.passes && ListsPicks(s, filter, now, orphaned, stalePending, staleFailed)
    ensures var begin := BeginPass(pass, Picks(orphaned, stalePending, staleFailed), now);
            && Possible(s, begin)
            && var t := Finished(Step(s, begin), pass);
               && t.requests == Reconciled(s.requests, s.users, filter, now)
               && pass in t.passes && t == s.(requests := t.requests, passes := s.passes[pass := t.passes[pass]])
               && var p := t.passes[pass];
                  && Summary(p.orphaned, p.stalePending, p.staleFailed)
                     == Summary(|Orphaned(s.requests, s.users, filter)|, |StalePending(s.requests, filter, now)|,
                                |StaleFailed(s.requests, filter, now)|)
                  && p.audited == orphaned + stalePending + staleFailed
  {
    hide Orphaned, StalePending, StaleFailed, Reconciled, Finished, Alone, Ready, Good, Picks, CountOf;
    var todo := Picks(orphaned, stalePending, staleFailed);
    var begin := BeginPass(pass, todo, now);
    PicksAreReady(s, filter, now, orphaned, stalePending, staleFailed);
    ReadyIsPossible(s, pass, todo, now);
    FinishedIsAlone(Step(s, begin), pass);
    PassAlone(s.requests, Pass(now, todo, None, 0, 0, 0, [], []));
    IdsOfPicks(orphaned, stalePending, staleFailed);
    CountOfPicks(orphaned, stalePending, staleFailed, Approved);
    CountOfPicks(orphaned, stalePending, staleFailed, Pending);
    CountOfPicks(orphaned, stalePending, staleFailed, Failed);
    DistinctSize(orphaned);
    DistinctSize(stalePending);
    DistinctSize(staleFailed);
    ReconciledIsPicked(s, filter, now, Finished(Step(s, begin), pass).requests, orphaned, stalePending, staleFailed);
  }

  lemma ReadyIsPossible(s: State, pass: nat, todo: seq<Job>, now: int)
    requires Good(s) && pass !in s.passes && Ready(s.requests, todo)
    ensures Possible(s, BeginPass(pass, todo, now))
  {
  }

  lemma ReconciledIsPicked(s: State, filter: Option<string>, now: int, after: Requests, orphaned: seq<Id>,
                           stalePending: seq<Id>, staleFailed: seq<Id>)
    requires ListsPicks(s, filter, now, orphaned, stalePending, staleFailed)
    requires JustExpired(s.requests, after, Elements(orphaned + stalePending + staleFailed), now)
    ensures after == Reconciled(s.requests, s.users, filter, now)
  {
    hide Orphaned, StalePending, StaleFailed, Reconciled;
    ReconciledMeaning(s.requests, s.users, filter, now);
    assert [] + orphaned + stalePending + staleFailed == orphaned + stalePending + staleFailed;
    ElementsOfThree([], orphaned, stalePending, staleFailed);
  }
}
