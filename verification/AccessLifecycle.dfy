/** The tables behind VPN access requests and the automatic expiry of requests:
    which rows are picked, and what the row-by-row updates do to them. */
module AccessLifecycle {
  import opened Text
  import opened Schema

  const DAY_MS: int := 24 * 60 * 60 * 1000
  const STALE_PENDING_DAYS: int := 14
  const STALE_FAILED_DAYS: int := 7

  datatype Request = Request(email: string, serverId: string, status: Status, createdAt: int, updatedAt: int,
                             reviewedBy: Option<string>)

  type Requests = map<Id, Request>

  predicate GivesAccess(u: VpnUser, email: string, serverId: string) {
    u.email == email && u.serverId == serverId && u.isEnabled
  }

  predicate HasAccess(users: Users, email: string, serverId: string) {
    exists u :: u in users && GivesAccess(users[u], email, serverId)
  }

  // Pairs as strings --------------------------------------------------------

  /** The pair of a request as one string. */
  function PairKey(email: string, serverId: string): string {
    email + "::" + serverId
  }

  /** Where "::" first occurs at or after i, or the length. */
  function FindColons(s: string, i: nat): (r: nat)
    requires i <= |s|
    ensures i <= r <= |s|
    ensures forall k :: i <= k < r && k + 1 < |s| ==> !(s[k] == ':' && s[k + 1] == ':')
    ensures r < |s| ==> r + 1 < |s| && s[r] == ':' && s[r + 1] == ':'
    decreases |s| - i
  {
    if i + 1 < |s| && s[i] == ':' && s[i + 1] == ':' then i
    else if i == |s| then i
    else FindColons(s, i + 1)
  }

  /** The first two parts of the split at "::". */
  function SplitPair(s: string): (string, string) {
    var i := FindColons(s, 0);
    if i == |s| then (s, "")
    else
      var j := FindColons(s, i + 2);
      (s[..i], s[i + 2..j])
  }

  predicate NoColon(s: string) {
    ':' !in s
  }

  /** An e-mail that the split at "::" does not give back. */
  predicate Hidden(email: string) {
    || (exists k :: 0 <= k < |email| - 1 && email[k] == ':' && email[k + 1] == ':')
    || (email != "" && email[|email| - 1] == ':')
  }

  /** Where the join has its first "::". */
  lemma FirstColons(email: string, serverId: string)
    ensures FindColons(PairKey(email, serverId), 0) == |email| <==> !Hidden(email)
    ensures FindColons(PairKey(email, serverId), 0) <= |email|
  {
    var s := PairKey(email, serverId);
    var n := |email|;
    assert s[n] == ':' && s[n + 1] == ':';
    assert forall k :: 0 <= k < n ==> s[k] == email[k];
  }

  lemma NoFurtherColons(email: string, serverId: string)
    requires NoColon(serverId)
    ensures FindColons(PairKey(email, serverId), |email| + 2) == |PairKey(email, serverId)|
  {
    var s := PairKey(email, serverId);
    assert forall k :: |email| + 2 <= k < |s| ==> s[k] == serverId[k - |email| - 2] != ':';
  }

  /** The split undoes the join exactly for e-mails that neither contain "::" nor end
      with a colon. */
  lemma SplitUndoesPairIff(email: string, serverId: string)
    requires NoColon(serverId)
    ensures SplitPair(PairKey(email, serverId)) == (email, serverId) <==> !Hidden(email)
  {
    hide FindColons, Hidden;
    var s := PairKey(email, serverId);
    FirstColons(email, serverId);
    NoFurtherColons(email, serverId);
    assert s[..|email|] == email;
    assert s[|email| + 2..|s|] == serverId;
  }

  /** What stands before the first "::" is never hidden itself. */
  lemma SplitIsNotHidden(email: string, serverId: string)
    ensures !Hidden(SplitPair(PairKey(email, serverId)).0)
  {
    var s := PairKey(email, serverId);
    assert s[|email|] == ':' && s[|email| + 1] == ':';
    var i := FindColons(s, 0);
    assert forall k :: 0 <= k < i ==> s[..i][k] == s[k];
  }

  /** Server identifiers without a colon keep the pairs apart, whatever the e-mail. */
  lemma PairKeyIsInjective(email: string, serverId: string, email': string, serverId': string)
    requires NoColon(serverId) && NoColon(serverId')
    requires PairKey(email, serverId) == PairKey(email', serverId')
    ensures email == email' && serverId == serverId'
  {
    var s := PairKey(email, serverId);
    var n, n' := |email|, |email'|;
    assert s[n + 1] == ':' && s[n' + 1] == ':';
    assert forall k :: n + 2 <= k < |s| ==> s[k] == serverId[k - n - 2] != ':';
    assert forall k :: n' + 2 <= k < |s| ==> s[k] == serverId'[k - n' - 2] != ':';
    assert s[..n] == email == email';
    assert s[n + 2..] == serverId == serverId';
  }

  // What is picked ----------------------------------------------------------

  /** An absent or empty filter selects every request. */
  predicate Matches(r: Request, filter: Option<string>) {
    filter.None? || filter.value == "" || r.email == filter.value
  }

  function WithStatus(requests: Requests, status: Status, filter: Option<string>): set<Id> {
    set id | id in requests && requests[id].status == status && Matches(requests[id], filter)
  }

  function Orphaned(requests: Requests, users: Users, filter: Option<string>): set<Id> {
    var approved := WithStatus(requests, Approved, filter);
    var pairs := set id | id in approved :: SplitPair(PairKey(requests[id].email, requests[id].serverId));
    var enabledKeys := set u | u in users && users[u].isEnabled && (users[u].email, users[u].serverId) in pairs
                       :: PairKey(users[u].email, users[u].serverId);
    set id | id in approved && PairKey(requests[id].email, requests[id].serverId) !in enabledKeys
  }

  function StalePending(requests: Requests, filter: Option<string>, now: int): set<Id> {
    set id | id in WithStatus(requests, Pending, filter)
             && requests[id].createdAt <= now - STALE_PENDING_DAYS * DAY_MS
  }

  function StaleFailed(requests: Requests, filter: Option<string>, now: int): set<Id> {
    set id | id in WithStatus(requests, Failed, filter)
             && requests[id].updatedAt <= now - STALE_FAILED_DAYS * DAY_MS
  }

  predicate ColonFreeServers(requests: Requests, users: Users) {
    && (forall id :: id in requests ==> NoColon(requests[id].serverId))
    && (forall u :: u in users ==> NoColon(users[u].serverId))
  }

  /** No approved request that has lost its access escapes. */
  lemma LostAccessIsOrphaned(requests: Requests, users: Users, filter: Option<string>, id: Id)
    requires ColonFreeServers(requests, users)
    requires id in WithStatus(requests, Approved, filter)
    requires !HasAccess(users, requests[id].email, requests[id].serverId)
    ensures id in Orphaned(requests, users, filter)
  {
    var r := requests[id];
    forall u | u in users && users[u].isEnabled
      ensures PairKey(users[u].email, users[u].serverId) == PairKey(r.email, r.serverId) ==> HasAccess(users, r.email, r.serverId)
    {
      SameKeyIsAccess(users, u, r);
    }
  }

  lemma SameKeyIsAccess(users: Users, u: Id, r: Request)
    requires u in users && users[u].isEnabled && NoColon(users[u].serverId) && NoColon(r.serverId)
    ensures PairKey(users[u].email, users[u].serverId) == PairKey(r.email, r.serverId) ==> HasAccess(users, r.email, r.serverId)
  {
    if PairKey(users[u].email, users[u].serverId) == PairKey(r.email, r.serverId) {
      PairKeyIsInjective(users[u].email, users[u].serverId, r.email, r.serverId);
      assert GivesAccess(users[u], r.email, r.serverId);
    }
  }

  /** An approved request is taken for an orphan exactly when its access is gone or
      its e-mail is hidden: contains "::" or ends with a colon. */
  lemma OrphanedIff(requests: Requests, users: Users, filter: Option<string>, id: Id)
    requires ColonFreeServers(requests, users)
    requires id in WithStatus(requests, Approved, filter)
    ensures id in Orphaned(requests, users, filter)
            <==> !HasAccess(users, requests[id].email, requests[id].serverId) || Hidden(requests[id].email)
  {
    var r := requests[id];
    if Hidden(r.email) {
      HiddenIsOrphaned(requests, users, filter, id);
    } else if HasAccess(users, r.email, r.serverId) {
      var u :| u in users && GivesAccess(users[u], r.email, r.serverId);
      SplitUndoesPairIff(r.email, r.serverId);
      assert (users[u].email, users[u].serverId) == SplitPair(PairKey(r.email, r.serverId));
    } else {
      LostAccessIsOrphaned(requests, users, filter, id);
    }
  }

  lemma HiddenIsOrphaned(requests: Requests, users: Users, filter: Option<string>, id: Id)
    requires ColonFreeServers(requests, users)
    requires id in WithStatus(requests, Approved, filter) && Hidden(requests[id].email)
    ensures id in Orphaned(requests, users, filter)
  {
    hide Hidden, SplitPair, PairKey;
    var r := requests[id];
    forall u, other | u in users && users[u].isEnabled && other in WithStatus(requests, Approved, filter)
                      && (users[u].email, users[u].serverId) == SplitPair(PairKey(requests[other].email, requests[other].serverId))
      ensures PairKey(users[u].email, users[u].serverId) != PairKey(r.email, r.serverId)
    {
      SplitIsNotHidden(requests[other].email, requests[other].serverId);
      if PairKey(users[u].email, users[u].serverId) == PairKey(r.email, r.serverId) {
        PairKeyIsInjective(users[u].email, users[u].serverId, r.email, r.serverId);
      }
    }
  }

  /** Both kinds of hidden e-mail lose an access that is there: one with "::" inside,
      and one without any "::" that ends with a colon. */
  lemma ColonsHideAccess(email: string)
    requires email == "a::b" || email == "a:"
    ensures var requests := map[0 := Request(email, "s", Approved, 0, 0, None)];
            var users := map[0 := VpnUser(email, "s", "n", true, Active)];
            0 in Orphaned(requests, users, None) && HasAccess(users, email, "s")
  {
    var requests := map[0 := Request(email, "s", Approved, 0, 0, None)];
    var users := map[0 := VpnUser(email, "s", "n", true, Active)];
    assert GivesAccess(users[0], email, "s");
    assert Hidden(email) by {
      assert email[1] == ':' && (|email| > 2 ==> email[2] == ':');
    }
    OrphanedIff(requests, users, None, 0);
  }

  // Expiring rows -----------------------------------------------------------

  function ExpiredRow(r: Request, now: int): Request {
    r.(status := Expired, updatedAt := now, reviewedBy := Some("system"))
  }

  function Elements(list: seq<Id>): set<Id> {
    set id | id in list
  }

  lemma ElementsAppend(list: seq<Id>, id: Id)
    ensures Elements(list + [id]) == Elements(list) + {id}
  {
  }

  lemma ElementsOfThree(before: seq<Id>, a: seq<Id>, b: seq<Id>, c: seq<Id>)
    ensures Elements((before + a + b + c)[|before|..]) == Elements(a) + Elements(b) + Elements(c)
  {
    assert (before + a + b + c)[|before|..] == a + b + c;
  }

  /** The rows that an expiry aimed at `ids` really changes. */
  function Hit(requests: Requests, ids: set<Id>, expected: Status): set<Id> {
    set id | id in ids && id in requests && requests[id].status == expected
  }

  function Expire(requests: Requests, ids: set<Id>, expected: Status, now: int): Requests {
    map id | id in requests ::
      if id in ids && requests[id].status == expected then ExpiredRow(requests[id], now) else requests[id]
  }

  function Reconciled(requests: Requests, users: Users, filter: Option<string>, now: int): Requests {
    var first := Expire(requests, Orphaned(requests, users, filter), Approved, now);
    var second := Expire(first, StalePending(requests, filter, now), Pending, now);
    Expire(second, StaleFailed(requests, filter, now), Failed, now)
  }

  /** In one go, a reconcile expires exactly what it picks. */
  lemma ReconciledMeaning(requests: Requests, users: Users, filter: Option<string>, now: int)
    ensures var after := Reconciled(requests, users, filter, now);
            var picked := Orphaned(requests, users, filter) + StalePending(requests, filter, now) + StaleFailed(requests, filter, now);
            && after.Keys == requests.Keys
            && forall id :: id in requests ==>
                 after[id] == if id in picked then ExpiredRow(requests[id], now) else requests[id]
  {
  }

  /** Whom a reconcile expires, in terms of the row itself: a request that meets the
      filter and has been PENDING for 14 days since its creation, FAILED for 7 days
      since its last change, or APPROVED without an enabled user (or with an e-mail
      that is hidden). Nothing else about the row changes, and no other row. */
  lemma {:induction false} ReconcileExpiresIff(requests: Requests, users: Users, filter: Option<string>, now: int, id: Id)
    requires ColonFreeServers(requests, users) && id in requests
    ensures var r := requests[id];
            var meant := filter.None? || filter.value == "" || filter.value == r.email;
            var expires := meant && match r.status
              case Pending => r.createdAt + 14 * 24 * 60 * 60 * 1000 <= now
              case Failed => r.updatedAt + 7 * 24 * 60 * 60 * 1000 <= now
              case Approved => Hidden(r.email) ||
                !exists u :: u in users && users[u].email == r.email && users[u].serverId == r.serverId && users[u].isEnabled
              case _ => false;
            && id in Reconciled(requests, users, filter, now)
            && Reconciled(requests, users, filter, now)[id]
               == if expires then Request(r.email, r.serverId, Expired, r.createdAt, now, Some("system")) else r
  {
    hide Hidden, Orphaned, Reconciled;
    ReconciledMeaning(requests, users, filter, now);
    if id in WithStatus(requests, Approved, filter) {
      OrphanedIff(requests, users, filter, id);
      AccessMeans(users, requests[id].email, requests[id].serverId);
    }
    OrphansAreApproved(requests, users, filter);
  }

  lemma OrphansAreApproved(requests: Requests, users: Users, filter: Option<string>)
    ensures Orphaned(requests, users, filter) <= WithStatus(requests, Approved, filter)
  {
  }

  lemma AccessMeans(users: Users, email: string, serverId: string)
    ensures HasAccess(users, email, serverId)
            <==> exists u :: u in users && users[u].email == email && users[u].serverId == serverId && users[u].isEnabled
  {
    if u :| u in users && users[u].email == email && users[u].serverId == serverId && users[u].isEnabled {
      assert GivesAccess(users[u], email, serverId);
    }
  }

  lemma ExpireMore(requests: Requests, done: set<Id>, id: Id, expected: Status, now: int)
    requires expected != Expired
    ensures var more := Expire(requests, done + {id}, expected, now);
            var soFar := Expire(requests, done, expected, now);
            if id in soFar && soFar[id].status == expected
            then && more == soFar[id := ExpiredRow(soFar[id], now)]
                 && Hit(requests, done + {id}, expected) == Hit(requests, done, expected) + {id}
                 && id !in Hit(requests, done, expected)
            else more == soFar && Hit(requests, done + {id}, expected) == Hit(requests, done, expected)
  {
  }

  /** After the first rows of a list: the table, and the rows changed so far. */
  ghost predicate Progress(was: Requests, done: set<Id>, expected: Status, now: int, requests: Requests, targets: seq<Id>) {
    && requests == Expire(was, done, expected, now)
    && |Hit(was, done, expected)| == |targets|
    && Elements(targets) == Hit(was, done, expected)
  }

  lemma ProgressStart(was: Requests, expected: Status, now: int)
    ensures Progress(was, {}, expected, now, was, [])
  {
    assert Hit(was, {}, expected) == {};
  }

  lemma ProgressMeans(was: Requests, done: set<Id>, expected: Status, now: int, requests: Requests, targets: seq<Id>)
    requires Progress(was, done, expected, now, requests, targets)
    ensures requests == Expire(was, done, expected, now)
    ensures |Hit(was, done, expected)| == |targets| && Elements(targets) == Hit(was, done, expected)
  {
  }

  lemma ProgressStep(was: Requests, done: set<Id>, expected: Status, now: int, requests: Requests, targets: seq<Id>, id: Id)
    requires expected != Expired && Progress(was, done, expected, now, requests, targets)
    ensures if id in requests && requests[id].status == expected
            then Progress(was, done + {id}, expected, now, requests[id := ExpiredRow(requests[id], now)], targets + [id])
            else Progress(was, done + {id}, expected, now, requests, targets)
  {
    ExpireMore(was, done, id, expected, now);
    ElementsAppend(targets, id);
  }

  /** The later lists are not touched by the earlier expiries. */
  lemma PickedAreHit(requests: Requests, users: Users, filter: Option<string>, now: int)
    ensures var orphaned := Orphaned(requests, users, filter);
            var pending := StalePending(requests, filter, now);
            var failed := StaleFailed(requests, filter, now);
            var first := Expire(requests, orphaned, Approved, now);
            var second := Expire(first, pending, Pending, now);
            && Hit(requests, orphaned, Approved) == orphaned
            && Hit(first, pending, Pending) == pending
            && Hit(second, failed, Failed) == failed
  {
  }

  datatype Summary = Summary(orphaned: nat, stalePending: nat, staleFailed: nat)

  class RequestStore {
    var requests: Requests
    var users: Users
    var audits: seq<Id>  // the targets of the auto-expired entries

    constructor (requests: Requests, users: Users)
      ensures this.requests == requests && this.users == users && audits == []
    {
      this.requests := requests;
      this.users := users;
      audits := [];
    }

    /** Rows come back from the database in some order. */
    method Listed(ids: set<Id>) returns (list: seq<Id>)
      ensures Elements(list) == ids
      ensures forall i, j :: 0 <= i < j < |list| ==> list[i] != list[j]
    {
      list := [];
      var rest := ids;
      while rest != {}
        invariant rest <= ids && forall id :: id in list <==> id in ids - rest
        invariant forall i, j :: 0 <= i < j < |list| ==> list[i] != list[j]
        decreases rest
      {
        var id :| id in rest;
        assert id !in list;
        rest := rest - {id};
        list := list + [id];
      }
    }

    /** One conditional update, and its audit entry if it changed the row. */
    method ExpireOne(id: Id, expected: Status, now: int) returns (count: nat)
      requires expected != Expired
      modifies `requests, `audits
      ensures count == 1 <==> id in old(requests) && old(requests)[id].status == expected
      ensures count == 1 ==> requests == old(requests)[id := ExpiredRow(old(requests)[id], now)] && audits == old(audits) + [id]
      ensures count != 1 ==> count == 0 && requests == old(requests) && audits == old(audits)
    {
      if id !in requests || requests[id].status != expected {
        return 0;
      }
      requests := requests[id := ExpiredRow(requests[id], now)];
      audits := audits + [id];
      return 1;
    }

    method ExpireRequests(list: seq<Id>, expected: Status, now: int) returns (expiredCount: nat, ghost targets: seq<Id>)
      requires expected != Expired
      modifies `requests, `audits
      ensures requests == Expire(old(requests), Elements(list), expected, now)
      ensures expiredCount == |Hit(old(requests), Elements(list), expected)| == |targets|
      ensures audits == old(audits) + targets
      ensures Elements(targets) == Hit(old(requests), Elements(list), expected)
    {
      hide Expire, Hit, Progress, ExpiredRow;
      expiredCount := 0;
      targets := [];
      ghost var was := requests;
      ProgressStart(was, expected, now);
      for i := 0 to |list|
        invariant Progress(was, Elements(list[..i]), expected, now, requests, targets)
        invariant expiredCount == |targets| && audits == old(audits) + targets
      {
        ProgressStep(was, Elements(list[..i]), expected, now, requests, targets, list[i]);
        ElementsAppend(list[..i], list[i]);
        assert list[..i + 1] == list[..i] + [list[i]];
        var count := ExpireOne(list[i], expected, now);
        expiredCount := expiredCount + count;
        if count == 1 {
          targets := targets + [list[i]];
        }
      }
      assert list[..|list|] == list;
      ProgressMeans(was, Elements(list), expected, now, requests, targets);
    }

    method ReconcileAccessRequestLifecycle(filter: Option<string>, now: int) returns (summary: Summary)
      modifies `requests, `audits
      ensures requests == Reconciled(old(requests), users, filter, now)
      ensures summary == Summary(|Orphaned(old(requests), users, filter)|, |StalePending(old(requests), filter, now)|,
                                 |StaleFailed(old(requests), filter, now)|)
      ensures old(audits) <= audits
      ensures |audits| == |old(audits)| + summary.orphaned + summary.stalePending + summary.staleFailed
      ensures Elements(audits[|old(audits)|..])
              == Orphaned(old(requests), users, filter) + StalePending(old(requests), filter, now)
                 + StaleFailed(old(requests), filter, now)
    {
      hide Expire, Hit, Orphaned, StalePending, StaleFailed, Elements;
      PickedAreHit(requests, users, filter, now);
      var orphaned := Orphaned(requests, users, filter);
      var stalePending := StalePending(requests, filter, now);
      var staleFailed := StaleFailed(requests, filter, now);
      var list1 := Listed(orphaned);
      var list2 := Listed(stalePending);
      var list3 := Listed(staleFailed);
      ghost var before := audits;
      var a, first := ExpireRequests(list1, Approved, now);
      var b, second := ExpireRequests(list2, Pending, now);
      var c, third := ExpireRequests(list3, Failed, now);
      summary := Summary(a, b, c);
      ElementsOfThree(before, first, second, third);
    }
  }
}
