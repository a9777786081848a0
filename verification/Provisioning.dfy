/** Approving an access request: a provisioning saga over the database and the
    certificate authority of the VPN server, with a fault at any awaited step. */
module Provisioning {
  import opened Text
  import opened Schema
  import CommonNames

  datatype Request = Request(email: string, serverId: string, groupIds: seq<string>, status: Status)

  /** A certificate is known by its server and common name. */
  datatype Cert = Cert(serverId: string, commonName: string)

  datatype Membership = Membership(userId: Id, groupId: string)

  datatype Db = Db(requests: map<Id, Request>, users: Users, nextUser: Id,
                   memberships: map<Membership, Source>, certs: set<Cert>)

  /** Where the one fault of an attempt strikes. A step that an attempt does not
      take cannot fail. A failed generation may have issued the certificate. */
  datatype Fault =
    | NoFault
    | FindName | CreateUser | AuditUserCreated | CreateMemberships
    | GenerateCert(issued: bool) | LookUpExpiry | Commit
    | AuditCertGenerated | AuditApproved

  /** Faults behind the commit. */
  predicate AfterCommit(f: Fault) {
    f == AuditCertGenerated || f == AuditApproved
  }

  datatype Attempt = Attempt(commonName: string, fault: Fault, revokeFails: bool)

  datatype Reply = NotFound | InProgress | AlreadyReviewed | Done | ProvisioningFailed

  // Parts of the saga -------------------------------------------------------

  function UsersOf(users: Users, email: string, serverId: string): set<Id> {
    set u | u in users && users[u].email == email && users[u].serverId == serverId
  }

  /** The unique constraints of the user table, and fresh identifiers. */
  ghost predicate WellFormed(db: Db) {
    && UniqueEmails(db.users)
    && (forall u :: u in db.users ==> u < db.nextUser)
    && (forall m :: m in db.memberships ==> m.userId < db.nextUser)
  }

  ghost function FindUser(users: Users, email: string, serverId: string): (r: Option<Id>)
    ensures r.None? <==> UsersOf(users, email, serverId) == {}
    ensures r.Some? ==> r.value in UsersOf(users, email, serverId)
  {
    if UsersOf(users, email, serverId) == {} then None
    else
      var u :| u in UsersOf(users, email, serverId);
      Some(u)
  }

  /** The user an approval is about: the one that exists, or the next to be created. */
  ghost function Target(db: Db, r: Request): Id {
    var found := FindUser(db.users, r.email, r.serverId);
    if found.Some? then found.value else db.nextUser
  }

  function SetStatus(db: Db, id: Id, status: Status): Db
    requires id in db.requests
  {
    db.(requests := db.requests[id := db.requests[id].(status := status)])
  }

  /** createMany with skipDuplicates: a membership that exists keeps its source. */
  function AddMemberships(ms: map<Membership, Source>, userId: Id, groupIds: seq<string>): map<Membership, Source> {
    (map g | g in groupIds :: Membership(userId, g) := Manual) + ms
  }

  /** The catch block. `loaded` is the user as the attempt loaded or created it. */
  function Compensated(db: Db, id: Id, loaded: Option<(Id, VpnUser)>, newCert: bool, revokeFails: bool): Db
    requires id in db.requests && (loaded.Some? ==> loaded.value.0 in db.users)
  {
    var failed := SetStatus(db, id, Failed);
    if loaded.None? then failed
    else
      var (userId, user) := loaded.value;
      failed.(certs := if newCert && !revokeFails then db.certs - {Cert(user.serverId, user.commonName)} else db.certs,
              users := if user.certStatus != Active then db.users[userId := db.users[userId].(isEnabled := false)] else db.users)
  }

  function NewUser(r: Request, commonName: string): VpnUser {
    VpnUser(r.email, r.serverId, commonName, false, NoCert)
  }

  /** The user as the attempt loads or creates it. */
  ghost function LoadedUser(db: Db, r: Request, commonName: string): VpnUser {
    if Target(db, r) in db.users then db.users[Target(db, r)] else NewUser(r, commonName)
  }

  // The saga ----------------------------------------------------------------

  /** How far an attempt got when its fault struck, or that it got through. */
  datatype Point = Point(hasUser: bool, hasMembers: bool, issued: bool, knowsCert: bool, committed: bool, completed: bool)

  function Reached(isNew: bool, hasGroups: bool, needsCert: bool, f: Fault): Point {
    if isNew && (f == FindName || f == CreateUser) then Point(false, false, false, false, false, false)
    else if (isNew && f == AuditUserCreated) || (hasGroups && f == CreateMemberships)
    then Point(true, false, false, false, false, false)
    else if needsCert && f.GenerateCert? then Point(true, true, f.issued, false, false, false)
    else if needsCert && f == LookUpExpiry then Point(true, true, true, false, false, false)
    else if f == Commit then Point(true, true, needsCert, needsCert, false, false)
    else if (needsCert && f == AuditCertGenerated) || f == AuditApproved
    then Point(true, true, needsCert, needsCert, true, false)
    else Point(true, true, needsCert, needsCert, true, true)
  }

  /** The point is decided by the first step that fails. */
  lemma FirstFaultDecides(isNew: bool, hasGroups: bool, needsCert: bool, f: Fault)
    ensures isNew && (f == FindName || f == CreateUser)
            ==> Reached(isNew, hasGroups, needsCert, f) == Point(false, false, false, false, false, false)
    ensures (isNew && f == AuditUserCreated) || (hasGroups && f == CreateMemberships)
            ==> Reached(isNew, hasGroups, needsCert, f) == Point(true, false, false, false, false, false)
    ensures !(isNew && (f == FindName || f == CreateUser || f == AuditUserCreated)) && !(hasGroups && f == CreateMemberships)
            ==> && Reached(isNew, hasGroups, needsCert, f) == Reached(false, hasGroups, needsCert, f)
                && Reached(isNew, hasGroups, needsCert, f).hasUser
  {
  }

  ghost function ReachedBy(db: Db, r: Request, a: Attempt): Point {
    Reached(Target(db, r) !in db.users, r.groupIds != [], LoadedUser(db, r, a.commonName).certStatus != Active, a.fault)
  }

  /** The database at that point. */
  ghost function At(db: Db, id: Id, commonName: string, hasUser: bool, hasMembers: bool, issued: bool, committed: bool): Db
    requires id in db.requests
  {
    var r := db.requests[id];
    var u := Target(db, r);
    var user := LoadedUser(db, r, commonName);
    Db(db.requests[id := r.(status := if committed then Approved else Processing)],
       if hasUser
       then db.users[u := if committed then user.(isEnabled := true, certStatus := Active) else user]
       else db.users,
       if hasUser && u !in db.users then db.nextUser + 1 else db.nextUser,
       if hasMembers then AddMemberships(db.memberships, u, r.groupIds) else db.memberships,
       if issued then db.certs + {Cert(user.serverId, user.commonName)} else db.certs)
  }

  ghost function Provisioned(db: Db, id: Id, a: Attempt): (Db, Reply)
    requires id in db.requests
  {
    var r := db.requests[id];
    var p := ReachedBy(db, r, a);
    var at := At(db, id, a.commonName, p.hasUser, p.hasMembers, p.issued, p.committed);
    if p.completed then (at, Done)
    else
      var loaded := if p.hasUser then Some((Target(db, r), LoadedUser(db, r, a.commonName))) else None;
      (Compensated(at, id, loaded, p.knowsCert, a.revokeFails), ProvisioningFailed)
  }

  ghost function ApproveRequest(db: Db, id: Id, a: Attempt): (Db, Reply) {
    if id !in db.requests then (db, NotFound)
    else match db.requests[id].status
         case Processing => (db, InProgress)
         case Pending => Provisioned(db, id, a)
         case Failed => Provisioned(db, id, a)
         case _ => (db, AlreadyReviewed)
  }

  /** Who is provisioned at all: only a PENDING or FAILED request. Every other one is
      refused with the answer for its status, and nothing changes. */
  ghost predicate Answered(db: Db, id: Id, after: Db, reply: Reply) {
    && (reply == NotFound <==> id !in db.requests)
    && (reply == InProgress <==> id in db.requests && db.requests[id].status == Processing)
    && (reply == AlreadyReviewed <==> id in db.requests && db.requests[id].status in {Approved, Rejected, Expired})
    && (reply in {Done, ProvisioningFailed} <==> id in db.requests && db.requests[id].status in {Pending, Failed})
    && (after != db ==> id in db.requests && db.requests[id].status in {Pending, Failed})
  }

  lemma OnlyOpenRequestsMove(db: Db, id: Id, a: Attempt)
    ensures var (after, reply) := ApproveRequest(db, id, a);
            Answered(db, id, after, reply)
  {
    if id in db.requests {
      ProvisioningReplies(db, id, a);
    }
  }

  lemma ProvisioningReplies(db: Db, id: Id, a: Attempt)
    requires id in db.requests
    ensures Provisioned(db, id, a).1 in {Done, ProvisioningFailed}
  {
    hide At, Compensated, Reached;
  }

  // The handler -------------------------------------------------------------

  class Portal {
    var requests: map<Id, Request>
    var users: Users
    var nextUser: Id
    var memberships: map<Membership, Source>
    var certs: set<Cert>

    ghost function Value(): Db
      reads this
    {
      Db(requests, users, nextUser, memberships, certs)
    }

    constructor (db: Db)
      ensures Value() == db
    {
      requests, users, nextUser, memberships, certs := db.requests, db.users, db.nextUser, db.memberships, db.certs;
    }

    method FindFirst(email: string, serverId: string) returns (found: Option<Id>)
      requires |UsersOf(users, email, serverId)| <= 1
      ensures found == FindUser(users, email, serverId)
    {
      var all := UsersOf(users, email, serverId);
      if all == {} {
        return None;
      }
      var u :| u in all;
      AtMostOne(all, u, FindUser(users, email, serverId).value);
      return Some(u);
    }

    method UpdateStatus(id: Id, status: Status)
      requires id in requests
      modifies `requests
      ensures Value() == SetStatus(old(Value()), id, status)
    {
      requests := requests[id := requests[id].(status := status)];
    }

    method Catch(id: Id, loaded: Option<(Id, VpnUser)>, newCert: bool, revokeFails: bool)
      requires id in requests && (loaded.Some? ==> loaded.value.0 in users)
      modifies this
      ensures Value() == Compensated(old(Value()), id, loaded, newCert, revokeFails)
    {
      if newCert && loaded.Some? && !revokeFails {
        certs := certs - {Cert(loaded.value.1.serverId, loaded.value.1.commonName)};
      }
      UpdateStatus(id, Failed);
      if loaded.Some? && loaded.value.1.certStatus != Active {
        users := users[loaded.value.0 := users[loaded.value.0].(isEnabled := false)];
      }
    }

    /** The approve branch of PATCH. */
    method Approve(id: Id, a: Attempt) returns (reply: Reply)
      requires WellFormed(Value())
      modifies this
      ensures (Value(), reply) == ApproveRequest(old(Value()), id, a)
      ensures Answered(old(Value()), id, Value(), reply)
    {
      hide Provisioned, Answered;
      OnlyOpenRequestsMove(Value(), id, a);
      if id !in requests {
        return NotFound;
      }
      if requests[id].status == Processing {
        return InProgress;
      }
      if requests[id].status != Pending && requests[id].status != Failed {
        return AlreadyReviewed;
      }
      reply := Provision(id, a);
    }

    method Provision(id: Id, a: Attempt) returns (reply: Reply)
      requires WellFormed(Value()) && id in requests
      modifies this
      ensures (Value(), reply) == Provisioned(old(Value()), id, a)
    {
      hide At, Compensated, LoadedUser, Target, WellFormed, Reached;
      ghost var db := Value();
      ghost var needsCert := LoadedUser(db, db.requests[id], a.commonName).certStatus != Active;
      var loaded, isNew := LoadUser(id, a);
      FirstFaultDecides(isNew, requests[id].groupIds != [], needsCert, a.fault);
      if loaded.None? {
        Catch(id, None, false, a.revokeFails);
        return ProvisioningFailed;
      }
      if isNew && a.fault == AuditUserCreated {
        Catch(id, loaded, false, a.revokeFails);
        return ProvisioningFailed;
      }
      if requests[id].groupIds != [] && a.fault == CreateMemberships {
        Catch(id, loaded, false, a.revokeFails);
        return ProvisioningFailed;
      }
      var completed, generatedFreshCert := IssueAndCommit(id, loaded.value.0, loaded.value.1, db, a);
      if !completed {
        Catch(id, loaded, generatedFreshCert, a.revokeFails);
        return ProvisioningFailed;
      }
      return Done;
    }

    /** Memberships, certificate, commit and the audit entries behind it. */
    method IssueAndCommit(id: Id, userId: Id, user: VpnUser, ghost db: Db, a: Attempt)
      returns (completed: bool, generatedFreshCert: bool)
      requires id in db.requests && userId == Target(db, db.requests[id])
      requires user == LoadedUser(db, db.requests[id], a.commonName)
      requires id in requests && requests[id].groupIds == db.requests[id].groupIds && userId in users
      requires Value() == At(db, id, a.commonName, true, false, false, false)
      requires !(requests[id].groupIds != [] && a.fault == CreateMemberships)
      modifies this
      ensures id in requests && userId in users
      ensures var p := Reached(false, requests[id].groupIds != [], user.certStatus != Active, a.fault);
              && completed == p.completed && generatedFreshCert == p.knowsCert
              && Value() == At(db, id, a.commonName, p.hasUser, p.hasMembers, p.issued, p.committed)
      ensures requests[id].groupIds == old(requests[id].groupIds)
    {
      hide At, LoadedUser, Target, AddMemberships;
      CreateMany(id, userId, db, a);
      var needsNewCert := user.certStatus != Active;
      generatedFreshCert := false;
      if needsNewCert {
        generatedFreshCert := IssueCert(id, user, db, a);
        if !generatedFreshCert {
          return false, false;
        }
      }
      if a.fault == Fault.Commit {
        return false, generatedFreshCert;
      }
      Transaction(id, userId, db, a, needsNewCert);
      completed := !((needsNewCert && a.fault == AuditCertGenerated) || a.fault == AuditApproved);
    }

    /** Marks the request, then loads its user or creates one. */
    method LoadUser(id: Id, a: Attempt) returns (loaded: Option<(Id, VpnUser)>, isNew: bool)
      requires WellFormed(Value()) && id in requests
      modifies this
      ensures var db := old(Value());
              && requests.Keys == db.requests.Keys && requests[id].groupIds == db.requests[id].groupIds
              && (isNew <==> Target(db, db.requests[id]) !in db.users)
              && (isNew && (a.fault == FindName || a.fault == CreateUser) ==>
                    loaded.None? && Value() == At(db, id, a.commonName, false, false, false, false))
              && (!(isNew && (a.fault == FindName || a.fault == CreateUser)) ==>
                    && loaded == Some((Target(db, db.requests[id]), LoadedUser(db, db.requests[id], a.commonName)))
                    && loaded.value.0 in users
                    && Value() == At(db, id, a.commonName, true, false, false, false))
    {
      ghost var db := Value();
      UpdateStatus(id, Processing);
      var r := requests[id];
      LoadedIsTarget(db, db.requests[id], a.commonName);
      SmallSet(UsersOf(users, r.email, r.serverId), Target(db, r));
      var found := FindFirst(r.email, r.serverId);
      isNew := found.None?;
      if found.Some? {
        loaded := Some((found.value, users[found.value]));
      } else if a.fault == FindName || a.fault == CreateUser {
        loaded := None;
      } else {
        loaded := Some((nextUser, NewUser(r, a.commonName)));
        nextUser := nextUser + 1;
        users := users[loaded.value.0 := loaded.value.1];
      }
    }

    method CreateMany(id: Id, userId: Id, ghost db: Db, a: Attempt)
      requires id in db.requests && userId == Target(db, db.requests[id])
      requires id in requests && requests[id].groupIds == db.requests[id].groupIds
      requires Value() == At(db, id, a.commonName, true, false, false, false)
      modifies `memberships
      ensures Value() == At(db, id, a.commonName, true, true, false, false)
    {
      memberships := AddMemberships(memberships, userId, requests[id].groupIds);
    }

    /** Generates the certificate and looks up its expiry. */
    method IssueCert(id: Id, user: VpnUser, ghost db: Db, a: Attempt) returns (generated: bool)
      requires id in db.requests && user == LoadedUser(db, db.requests[id], a.commonName)
      requires Value() == At(db, id, a.commonName, true, true, false, false)
      modifies `certs
      ensures generated <==> !a.fault.GenerateCert? && a.fault != LookUpExpiry
      ensures Value() == At(db, id, a.commonName, true, true, a.fault.GenerateCert? ==> a.fault.issued, false)
    {
      if !a.fault.GenerateCert? || a.fault.issued {
        certs := certs + {Cert(user.serverId, user.commonName)};
      }
      generated := !a.fault.GenerateCert? && a.fault != LookUpExpiry;
    }

    /** The commit: request approved, user enabled, certificate active. */
    method Transaction(id: Id, userId: Id, ghost db: Db, a: Attempt, ghost issued: bool)
      requires id in db.requests && userId == Target(db, db.requests[id]) && id in requests && userId in users
      requires Value() == At(db, id, a.commonName, true, true, issued, false)
      modifies `requests, `users
      ensures Value() == At(db, id, a.commonName, true, true, issued, true)
      ensures requests.Keys == old(requests.Keys) && users.Keys == old(users.Keys)
      ensures requests[id].groupIds == old(requests[id].groupIds)
    {
      UpdateStatus(id, Approved);
      users := users[userId := users[userId].(isEnabled := true, certStatus := Active)];
    }
  }

  // One attempt -------------------------------------------------------------

  /** Nothing outside the request, its user, that user's memberships and that
      user's certificate is touched. */
  ghost predicate Framed(db: Db, after: Db, id: Id)
    requires id in db.requests
  {
    var u := Target(db, db.requests[id]);
    && after.requests.Keys == db.requests.Keys
    && after.requests[id] == db.requests[id].(status := after.requests[id].status)
    && (forall k :: k in db.requests && k != id ==> after.requests[k] == db.requests[k])
    && db.users.Keys <= after.users.Keys <= db.users.Keys + {u}
    && (forall k :: k in db.users && k != u ==> after.users[k] == db.users[k])
    && db.nextUser <= after.nextUser
    && (u !in db.users ==> after.nextUser == if u in after.users then db.nextUser + 1 else db.nextUser)
    && (u in db.users ==> after.nextUser == db.nextUser)
    && (u in after.users ==>
          after.users[u].email == db.requests[id].email && after.users[u].serverId == db.requests[id].serverId)
    && (u in db.users ==> after.users[u].commonName == db.users[u].commonName)
    && OthersMembershipsStay(db.memberships, after.memberships, u)
    && OtherCertsStay(db.certs, after.certs, Touched(after, id, u))
  }

  /** The certificate of a user, if there is the user. */
  function Touched(after: Db, id: Id, u: Id): set<Cert> {
    if u in after.users && id in after.requests
    then {Cert(after.requests[id].serverId, after.users[u].commonName)} else {}
  }

  /** Only these certificates are issued or revoked. */
  ghost predicate OtherCertsStay(before: set<Cert>, after: set<Cert>, touched: set<Cert>) {
    before - touched == after - touched
  }

  /** Nobody loses a membership or has its source changed, and only that user gains any. */
  ghost predicate OthersMembershipsStay(before: map<Membership, Source>, after: map<Membership, Source>, u: Id) {
    && (forall m :: m in before ==> m in after && after[m] == before[m])
    && (forall m :: m in after && m !in before ==> m.userId == u)
  }

  lemma AttemptIsFramed(db: Db, id: Id, a: Attempt)
    requires WellFormed(db) && id in db.requests
    ensures Framed(db, Provisioned(db, id, a).0, id)
  {
    hide Reached, LoadedUser, AddMemberships, OthersMembershipsStay, OtherCertsStay, Target, WellFormed, Touched;
    CertsAreFramed(db, id, a);
    LoadedIsTarget(db, db.requests[id], a.commonName);
    AddedStay(db.memberships, Target(db, db.requests[id]), db.requests[id].groupIds);
  }

  lemma CertsAreFramed(db: Db, id: Id, a: Attempt)
    requires WellFormed(db) && id in db.requests
    ensures var (u, after) := (Target(db, db.requests[id]), Provisioned(db, id, a).0);
            OtherCertsStay(db.certs, after.certs, Touched(after, id, u))
  {
    hide LoadedUser, AddMemberships, Target;
    LoadedIsTarget(db, db.requests[id], a.commonName);
  }

  lemma AddedStay(ms: map<Membership, Source>, u: Id, groupIds: seq<string>)
    ensures OthersMembershipsStay(ms, ms, u) && OthersMembershipsStay(ms, AddMemberships(ms, u, groupIds), u)
  {
  }

  lemma MembersAreBounded(db: Db, id: Id, a: Attempt, m: Membership)
    requires id in db.requests
    requires m in Provisioned(db, id, a).0.memberships
    ensures m in db.memberships || (m.userId == Target(db, db.requests[id]) && m.userId in Provisioned(db, id, a).0.users)
  {
  }

  lemma AttemptIsWellFormed(db: Db, id: Id, a: Attempt)
    requires WellFormed(db) && id in db.requests
    ensures WellFormed(Provisioned(db, id, a).0)
  {
    hide Provisioned, ReachedBy, At, AddMemberships;
    AttemptIsFramed(db, id, a);
    LoadedIsTarget(db, db.requests[id], a.commonName);
    var after := Provisioned(db, id, a).0;
    forall m | m in after.memberships ensures m.userId < after.nextUser {
      MembersAreBounded(db, id, a, m);
    }
  }

  lemma LoadedIsTarget(db: Db, r: Request, commonName: string)
    requires WellFormed(db)
    ensures var u := Target(db, r);
            var user := LoadedUser(db, r, commonName);
            && (u in db.users ==> user == db.users[u])
            && (u !in db.users ==> u == db.nextUser && user == NewUser(r, commonName))
            && user.email == r.email && user.serverId == r.serverId
            && forall k :: k in db.users && k != u ==> db.users[k].email != r.email || db.users[k].serverId != r.serverId
  {
    var found := FindUser(db.users, r.email, r.serverId);
    if found.None? {
      forall k | k in db.users ensures db.users[k].email != r.email || db.users[k].serverId != r.serverId {
        assert k !in UsersOf(db.users, r.email, r.serverId);
      }
    }
  }

  /** The name of an attempt that creates a user is the one the search finds. */
  ghost predicate Named(db: Db, r: Request, a: Attempt) {
    Target(db, r) !in db.users && a.fault != FindName ==>
      CommonNames.FirstFree(CommonNames.SanitizeCommonName(r.email), NamesOn(db.users, r.serverId), 0) == Some(a.commonName)
  }

  /** Common names stay unique on each server, and a new one is valid. */
  lemma {:induction false} AttemptKeepsNamesUnique(db: Db, id: Id, a: Attempt)
    requires WellFormed(db) && id in db.requests && UniqueNames(db.users) && Named(db, db.requests[id], a)
    ensures var after := Provisioned(db, id, a).0;
            && UniqueNames(after.users)
            && forall u :: u in after.users && u !in db.users ==> CommonNames.ValidCommonName(after.users[u].commonName)
  {
    hide Provisioned, WellFormed, Target, UniqueNames, CommonNames.ValidCommonName, CommonNames.FirstFree,
         CommonNames.SanitizeCommonName;
    var r := db.requests[id];
    var u := Target(db, r);
    var after := Provisioned(db, id, a).0;
    AttemptIsFramed(db, id, a);
    NewUserIsNamed(db, id, a);
    TargetIsOfServer(db, r);
    if u !in db.users && u in after.users {
      CommonNames.FirstFreeMeaning(CommonNames.SanitizeCommonName(r.email), NamesOn(db.users, r.serverId), 0);
    }
    NamesStayUnique(db.users, after.users, u);
  }

  lemma TargetIsOfServer(db: Db, r: Request)
    requires WellFormed(db)
    ensures Target(db, r) in db.users ==> db.users[Target(db, r)].serverId == r.serverId
  {
    LoadedIsTarget(db, r, "");
  }

  lemma NamesStayUnique(users: Users, after: Users, u: Id)
    requires UniqueNames(users) && after.Keys <= users.Keys + {u}
    requires forall k :: k in users && k != u ==> k in after && after[k] == users[k]
    requires u in users && u in after ==> after[u].serverId == users[u].serverId && after[u].commonName == users[u].commonName
    requires u !in users && u in after ==> after[u].commonName !in NamesOn(users, after[u].serverId)
    ensures UniqueNames(after)
  {
    if u !in users && u in after {
      forall k | k in users && users[k].serverId == after[u].serverId ensures users[k].commonName != after[u].commonName {
        assert users[k].commonName in NamesOn(users, after[u].serverId);
      }
    }
  }

  lemma NewUserIsNamed(db: Db, id: Id, a: Attempt)
    requires WellFormed(db) && id in db.requests
    ensures var (u, after) := (Target(db, db.requests[id]), Provisioned(db, id, a).0);
            u !in db.users && u in after.users ==> a.fault != FindName && after.users[u].commonName == a.commonName
  {
    hide AddMemberships;
    LoadedIsTarget(db, db.requests[id], a.commonName);
  }

  /** An attempt ends with the request approved or failed. Approved means an
      enabled user with an active certificate. */
  lemma AttemptEnds(db: Db, id: Id, a: Attempt)
    requires WellFormed(db) && id in db.requests
    ensures var (after, reply) := Provisioned(db, id, a);
            var u := Target(db, db.requests[id]);
            && (reply == Done <==> after.requests[id].status == Approved)
            && (reply == ProvisioningFailed <==> after.requests[id].status == Failed)
            && (reply == Done || reply == ProvisioningFailed)
            && (reply == Done ==>
                  && u in after.users && after.users[u].isEnabled && after.users[u].certStatus == Active
                  && UsersOf(after.users, db.requests[id].email, db.requests[id].serverId) == {u}
                  && forall g :: g in db.requests[id].groupIds ==> Membership(u, g) in after.memberships)
  {
    AttemptIsFramed(db, id, a);
  }

  /** A failed attempt whose fault is not behind the commit leaves every
      certificate status as it was, a new user without one, and the user disabled
      unless it already had an active certificate, in which case it is unchanged. */
  lemma FailureIsContained(db: Db, id: Id, a: Attempt)
    requires WellFormed(db) && id in db.requests && !AfterCommit(a.fault)
    requires Provisioned(db, id, a).1 == ProvisioningFailed
    ensures var after := Provisioned(db, id, a).0;
            var u := Target(db, db.requests[id]);
            && (forall k :: k in db.users ==> after.users[k].certStatus == db.users[k].certStatus)
            && (u in after.users && u !in db.users ==> after.users[u].certStatus == NoCert)
            && (u in after.users && after.users[u].certStatus != Active ==> !after.users[u].isEnabled)
            && (u in db.users && db.users[u].certStatus == Active ==> after.users[u] == db.users[u])
  {
  }

  /** Exactly when a failed attempt leaves a changed certificate status behind: a
      fault behind the commit of an attempt that needed a new certificate. The user
      then reads ACTIVE but disabled while its certificate has been revoked. */
  lemma StatusChangesIff(db: Db, id: Id, a: Attempt)
    requires WellFormed(db) && id in db.requests
    requires Provisioned(db, id, a).1 == ProvisioningFailed
    ensures var after := Provisioned(db, id, a).0;
            var u := Target(db, db.requests[id]);
            (u in after.users && after.users[u].certStatus != (if u in db.users then db.users[u].certStatus else NoCert))
            <==> AfterCommit(a.fault) && (u in db.users ==> db.users[u].certStatus != Active)
  {
  }

  /** Exactly when a failed attempt leaves an unrevoked new certificate on the
      server: the generation failed after issuing it, the expiry look-up failed, or
      the revocation itself failed. */
  lemma CertificateLeaksIff(db: Db, id: Id, a: Attempt)
    requires WellFormed(db) && id in db.requests
    requires Provisioned(db, id, a).1 == ProvisioningFailed
    requires var u := Target(db, db.requests[id]);
             var name := if u in db.users then db.users[u].commonName else a.commonName;
             Cert(db.requests[id].serverId, name) !in db.certs
    ensures var after := Provisioned(db, id, a).0;
            var u := Target(db, db.requests[id]);
            var name := if u in db.users then db.users[u].commonName else a.commonName;
            var needsCert := u in db.users ==> db.users[u].certStatus != Active;
            Cert(db.requests[id].serverId, name) in after.certs
            <==> needsCert && ((a.fault.GenerateCert? && a.fault.issued) || a.fault == LookUpExpiry
                               || ((a.fault == Commit || AfterCommit(a.fault)) && a.revokeFails))
  {
  }

  // The outcome of an attempt, fault by fault ---------------------------------

  /** The fault strikes a step that this attempt takes. */
  predicate Strikes(f: Fault, isNew: bool, hasGroups: bool, needsCert: bool) {
    match f
    case NoFault => false
    case FindName => isNew
    case CreateUser => isNew
    case AuditUserCreated => isNew
    case CreateMemberships => hasGroups
    case GenerateCert(_) => needsCert
    case LookUpExpiry => needsCert
    case AuditCertGenerated => needsCert
    case Commit => true
    case AuditApproved => true
  }

  /** The attempt got as far as the memberships. */
  predicate PastMemberships(f: Fault, isNew: bool, hasGroups: bool) {
    !(isNew && f in {FindName, CreateUser, AuditUserCreated}) && !(hasGroups && f == CreateMemberships)
  }

  /** What an attempt leaves in each table. */
  ghost predicate Outcome(db: Db, id: Id, a: Attempt, after: Db, reply: Reply)
    requires id in db.requests
  {
    var (r, u) := (db.requests[id], Target(db, db.requests[id]));
    var isNew := u !in db.users;
    var needsCert := isNew || db.users[u].certStatus != Active;
    var strikes := Strikes(a.fault, isNew, r.groupIds != [], needsCert);
    && (reply == if strikes then ProvisioningFailed else Done)
    && after.requests == db.requests[id := r.(status := if strikes then Failed else Approved)]
    && (u in after.users <==> !(isNew && a.fault in {FindName, CreateUser}))
    && (u in after.users ==> UserOutcome(db, r, u, a, after.users[u], strikes, needsCert))
    && (forall g :: g in r.groupIds && PastMemberships(a.fault, isNew, true) ==> Membership(u, g) in after.memberships)
    && (forall m :: m in after.memberships && m !in db.memberships ==>
          m.userId == u && m.groupId in r.groupIds && after.memberships[m] == Manual && PastMemberships(a.fault, isNew, true))
    && (u in after.users ==> CertOutcome(db.certs, Cert(r.serverId, after.users[u].commonName), a, after.certs, isNew,
                                         r.groupIds != [], needsCert))
    && (u !in after.users ==> after.certs == db.certs)
  }

  ghost predicate UserOutcome(db: Db, r: Request, u: Id, a: Attempt, user: VpnUser, strikes: bool, needsCert: bool) {
    var before := if u in db.users then db.users[u] else VpnUser(r.email, r.serverId, a.commonName, false, NoCert);
    && user.email == before.email && user.serverId == before.serverId && user.commonName == before.commonName
    && user.certStatus == (if !strikes || AfterCommit(a.fault) then Active else before.certStatus)
    && (user.isEnabled <==> !strikes || (!needsCert && (AfterCommit(a.fault) || before.isEnabled)))
  }

  ghost predicate CertOutcome(before: set<Cert>, c: Cert, a: Attempt, after: set<Cert>, isNew: bool, hasGroups: bool,
                              needsCert: bool) {
    if !needsCert || !PastMemberships(a.fault, isNew, hasGroups) || a.fault == GenerateCert(false) then after == before
    else if (a.fault == Commit || AfterCommit(a.fault)) && !a.revokeFails then after == before - {c}
    else after == before + {c}
  }

  /** Before the commit nobody gains access: a new user is disabled and without a
      certificate status, one that was there is as it was. */
  lemma UntilCommit(db: Db, id: Id, commonName: string, hasMembers: bool, issued: bool)
    requires WellFormed(db) && id in db.requests
    ensures var (r, u) := (db.requests[id], Target(db, db.requests[id]));
            var at := At(db, id, commonName, true, hasMembers, issued, false);
            && u in at.users
            && at.users[u] == (if u in db.users then db.users[u] else VpnUser(r.email, r.serverId, commonName, false, NoCert))
            && at.requests == db.requests[id := r.(status := Processing)]
            && forall k :: k in db.users ==> k in at.users && at.users[k] == db.users[k]
  {
    hide Target, WellFormed, AddMemberships;
    LoadedIsTarget(db, db.requests[id], commonName);
  }

  lemma ReplyOutcome(db: Db, id: Id, a: Attempt)
    requires WellFormed(db) && id in db.requests
    ensures var (after, reply) := Provisioned(db, id, a);
            var (r, u) := (db.requests[id], Target(db, db.requests[id]));
            var strikes := Strikes(a.fault, u !in db.users, r.groupIds != [],
                                   u in db.users ==> db.users[u].certStatus != Active);
            && (reply == if strikes then ProvisioningFailed else Done)
            && after.requests == db.requests[id := r.(status := if strikes then Failed else Approved)]
  {
    hide Target, WellFormed, AddMemberships, AfterCommit;
    LoadedIsTarget(db, db.requests[id], a.commonName);
  }

  lemma UserRowOutcome(db: Db, id: Id, a: Attempt)
    requires WellFormed(db) && id in db.requests
    ensures var after := Provisioned(db, id, a).0;
            var (r, u) := (db.requests[id], Target(db, db.requests[id]));
            var needsCert := u in db.users ==> db.users[u].certStatus != Active;
            var strikes := Strikes(a.fault, u !in db.users, r.groupIds != [], needsCert);
            && (u in after.users <==> !(u !in db.users && a.fault in {FindName, CreateUser}))
            && (u in after.users ==> UserOutcome(db, r, u, a, after.users[u], strikes, needsCert))
  {
    hide Target, WellFormed, AddMemberships;
    LoadedIsTarget(db, db.requests[id], a.commonName);
  }

  lemma MembershipOutcome(db: Db, id: Id, a: Attempt)
    requires WellFormed(db) && id in db.requests
    ensures var after := Provisioned(db, id, a).0;
            var (r, u) := (db.requests[id], Target(db, db.requests[id]));
            && (forall g :: g in r.groupIds && PastMemberships(a.fault, u !in db.users, true) ==> Membership(u, g) in after.memberships)
            && (forall m :: m in after.memberships && m !in db.memberships ==>
                  && m.userId == u && m.groupId in r.groupIds && after.memberships[m] == Manual
                  && PastMemberships(a.fault, u !in db.users, true))
  {
    hide Target, WellFormed, AddMemberships;
    var (r, u) := (db.requests[id], Target(db, db.requests[id]));
    LoadedIsTarget(db, r, a.commonName);
    AddedMeans(db.memberships, u, r.groupIds);
  }

  lemma AddedMeans(ms: map<Membership, Source>, u: Id, groupIds: seq<string>)
    ensures var added := AddMemberships(ms, u, groupIds);
            && (forall g :: g in groupIds ==> Membership(u, g) in added)
            && (forall m :: m in added && m !in ms ==> m.userId == u && m.groupId in groupIds && added[m] == Manual)
            && (groupIds == [] ==> added == ms)
  {
  }

  /** The certificates at the point that an attempt reaches, less the one that its
      compensation revokes. */
  function CertsAt(certs: set<Cert>, c: Cert, p: Point, revokeFails: bool): set<Cert> {
    var at := if p.issued then certs + {c} else certs;
    if !p.completed && p.hasUser && p.knowsCert && !revokeFails then at - {c} else at
  }

  lemma CertsAreAtPoint(db: Db, id: Id, a: Attempt)
    requires WellFormed(db) && id in db.requests
    ensures var after := Provisioned(db, id, a).0;
            var (r, u) := (db.requests[id], Target(db, db.requests[id]));
            var (user, p) := (LoadedUser(db, r, a.commonName), ReachedBy(db, r, a));
            && after.certs == CertsAt(db.certs, Cert(r.serverId, user.commonName), p, a.revokeFails)
            && (u in after.users <==> u in db.users || p.hasUser)
            && (u in after.users ==> after.users[u].commonName == user.commonName)
  {
    hide Target, WellFormed, AddMemberships, ReachedBy, LoadedUser;
    LoadedIsTarget(db, db.requests[id], a.commonName);
  }

  lemma CertsOfPoint(certs: set<Cert>, c: Cert, a: Attempt, isNew: bool, hasGroups: bool, needsCert: bool)
    requires isNew ==> needsCert
    ensures var p := Reached(isNew, hasGroups, needsCert, a.fault);
            && (!isNew || p.hasUser ==>
                  CertOutcome(certs, c, a, CertsAt(certs, c, p, a.revokeFails), isNew, hasGroups, needsCert))
            && (isNew && !p.hasUser ==> CertsAt(certs, c, p, a.revokeFails) == certs)
            && (!isNew ==> p.hasUser)
  {
    assert certs + {c} - {c} == certs - {c};
  }

  lemma CertsOutcome(db: Db, id: Id, a: Attempt)
    requires WellFormed(db) && id in db.requests
    ensures var after := Provisioned(db, id, a).0;
            var (r, u) := (db.requests[id], Target(db, db.requests[id]));
            && (u in after.users ==> CertOutcome(db.certs, Cert(r.serverId, after.users[u].commonName), a, after.certs,
                                                 u !in db.users, r.groupIds != [],
                                                 u in db.users ==> db.users[u].certStatus != Active))
            && (u !in after.users ==> after.certs == db.certs)
  {
    hide Target, WellFormed, Provisioned, LoadedUser, CertsAt, CertOutcome, Reached;
    var (r, u) := (db.requests[id], Target(db, db.requests[id]));
    var user := LoadedUser(db, r, a.commonName);
    LoadedIsTarget(db, r, a.commonName);
    CertsAreAtPoint(db, id, a);
    CertsOfPoint(db.certs, Cert(r.serverId, user.commonName), a, u !in db.users, r.groupIds != [], user.certStatus != Active);
  }

  /** The whole outcome: which faults fail the attempt, and what it leaves of the
      request, the user, the memberships and the certificates in each case. */
  lemma AttemptOutcome(db: Db, id: Id, a: Attempt)
    requires WellFormed(db) && id in db.requests
    ensures Outcome(db, id, a, Provisioned(db, id, a).0, Provisioned(db, id, a).1)
  {
    hide Provisioned, WellFormed, Target, Strikes, PastMemberships, UserOutcome, CertOutcome;
    ReplyOutcome(db, id, a);
    UserRowOutcome(db, id, a);
    MembershipOutcome(db, id, a);
    CertsOutcome(db, id, a);
  }

  // Retries -----------------------------------------------------------------

  /** Attempts one after the other; those after an approval are refused. */
  ghost function Retried(db: Db, id: Id, attempts: seq<Attempt>): Db {
    if attempts == [] then db
    else ApproveRequest(Retried(db, id, attempts[..|attempts| - 1]), id, attempts[|attempts| - 1]).0
  }

  lemma AddTwice(ms: map<Membership, Source>, u: Id, groupIds: seq<string>)
    ensures AddMemberships(AddMemberships(ms, u, groupIds), u, groupIds) == AddMemberships(ms, u, groupIds)
  {
  }

  /** What an attempt does to memberships: nothing, or the whole addition; an
      approval has done it. */
  lemma AttemptAddsMemberships(db: Db, id: Id, a: Attempt)
    requires WellFormed(db) && id in db.requests
    ensures var (after, reply) := Provisioned(db, id, a);
            var added := AddMemberships(db.memberships, Target(db, db.requests[id]), db.requests[id].groupIds);
            && (after.memberships == db.memberships || after.memberships == added)
            && (reply == Done ==> after.memberships == added)
  {
    hide AddMemberships, LoadedUser, FindUser;
  }

  /** A framed change keeps the user of the request the only one of its pair. */
  lemma TargetStays(db: Db, id: Id, after: Db)
    requires id in db.requests && WellFormed(db) && WellFormed(after) && Framed(db, after, id)
    ensures var r := db.requests[id];
            && UsersOf(after.users, r.email, r.serverId) <= {Target(db, r)}
            && Target(after, r) == Target(db, r)
  {
    var r := db.requests[id];
    var u := Target(db, r);
    LoadedIsTarget(db, r, "");
    if u in after.users {
      assert u in UsersOf(after.users, r.email, r.serverId);
    }
  }

  lemma TargetOfPair(db: Db, r: Request, other: Request)
    requires r.email == other.email && r.serverId == other.serverId
    ensures Target(db, r) == Target(db, other)
  {
  }

  lemma FramesCompose(db: Db, id: Id, mid: Db, after: Db)
    requires id in db.requests && WellFormed(db) && WellFormed(mid) && WellFormed(after)
    requires Framed(db, mid, id) && Framed(mid, after, id)
    ensures Framed(db, after, id)
  {
    hide Target, WellFormed, OtherCertsStay, OthersMembershipsStay;
    var u := Target(db, db.requests[id]);
    TargetStays(db, id, mid);
    TargetOfPair(mid, mid.requests[id], db.requests[id]);
    TargetIsNext(db, db.requests[id]);
    CertFramesCompose(db.certs, mid.certs, after.certs, Touched(mid, id, u), Touched(after, id, u));
    MembershipFramesCompose(db.memberships, mid.memberships, after.memberships, u);
  }

  lemma TargetIsNext(db: Db, r: Request)
    requires WellFormed(db)
    ensures Target(db, r) !in db.users ==> Target(db, r) == db.nextUser
  {
  }

  lemma MembershipFramesCompose(before: map<Membership, Source>, mid: map<Membership, Source>,
                                after: map<Membership, Source>, u: Id)
    requires OthersMembershipsStay(before, mid, u) && OthersMembershipsStay(mid, after, u)
    ensures OthersMembershipsStay(before, after, u)
  {
  }

  lemma CertFramesCompose(before: set<Cert>, mid: set<Cert>, after: set<Cert>, first: set<Cert>, second: set<Cert>)
    requires OtherCertsStay(before, mid, first) && OtherCertsStay(mid, after, second) && first <= second
    ensures OtherCertsStay(before, after, second)
  {
    forall c ensures c in before - second <==> c in after - second {
      assert c in before - first <==> c in mid - first;
      assert c in mid - second <==> c in after - second;
    }
  }

  ghost predicate RetryState(db: Db, id: Id, now: Db)
    requires id in db.requests
  {
    var r := db.requests[id];
    var u := Target(db, r);
    && WellFormed(now) && Framed(db, now, id)
    && now.requests[id].status in {r.status, Failed, Approved}
    && (now.memberships == db.memberships || now.memberships == AddMemberships(db.memberships, u, r.groupIds))
    && (now.requests[id].status == Approved ==>
          && u in now.users && now.users[u].isEnabled && now.users[u].certStatus == Active
          && now.memberships == AddMemberships(db.memberships, u, r.groupIds))
  }

  lemma RetryStep(db: Db, id: Id, now: Db, a: Attempt)
    requires WellFormed(db) && id in db.requests && db.requests[id].status in {Pending, Failed}
    requires RetryState(db, id, now)
    ensures RetryState(db, id, ApproveRequest(now, id, a).0)
  {
    hide Provisioned, AddMemberships, WellFormed, Target, OtherCertsStay, OthersMembershipsStay, UsersOf;
    var r := db.requests[id];
    if now.requests[id].status != Approved {
      AttemptIsWellFormed(now, id, a);
      AttemptIsFramed(now, id, a);
      AttemptEnds(now, id, a);
      AttemptAddsMemberships(now, id, a);
      AddTwice(db.memberships, Target(db, r), r.groupIds);
      TargetStays(db, id, now);
      TargetOfPair(now, now.requests[id], r);
      FramesCompose(db, id, now, Provisioned(now, id, a).0);
    }
  }

  /** However many attempts fail and wherever they fail, there is never more than
      one VPN user for the pair, and once the request is approved the memberships
      are those of a single attempt. */
  lemma {:induction false} RetriesAreIdempotent(db: Db, id: Id, attempts: seq<Attempt>)
    requires WellFormed(db) && id in db.requests && db.requests[id].status in {Pending, Failed}
    ensures var now := Retried(db, id, attempts);
            var r := db.requests[id];
            RetryState(db, id, now) && |UsersOf(now.users, r.email, r.serverId)| <= 1
  {
    var r := db.requests[id];
    if attempts == [] {
      LoadedIsTarget(db, r, "");
    } else {
      RetriesAreIdempotent(db, id, attempts[..|attempts| - 1]);
      RetryStep(db, id, Retried(db, id, attempts[..|attempts| - 1]), attempts[|attempts| - 1]);
    }
    TargetStays(db, id, Retried(db, id, attempts));
    SmallSet(UsersOf(Retried(db, id, attempts).users, r.email, r.serverId), Target(db, r));
  }

  // Whether an approved request has its certificate --------------------------

  /** Whether the next attempt generates a certificate: it looks at the status only. */
  ghost predicate NeedsCert(db: Db, r: Request) {
    Target(db, r) in db.users ==> db.users[Target(db, r)].certStatus != Active
  }

  /** The user of the request has its certificate on the server. */
  ghost predicate HasCert(db: Db, r: Request) {
    && Target(db, r) in db.users
    && Cert(r.serverId, db.users[Target(db, r)].commonName) in db.certs
  }

  /** The attempt generates a certificate, commits, fails behind the commit and
      revokes it: the status stays ACTIVE. */
  ghost predicate Strands(db: Db, id: Id, a: Attempt) {
    && id in db.requests && db.requests[id].status in {Pending, Failed}
    && NeedsCert(db, db.requests[id]) && AfterCommit(a.fault) && !a.revokeFails
  }

  ghost predicate NoneStrands(db: Db, id: Id, attempts: seq<Attempt>) {
    forall k :: 0 <= k < |attempts| ==> !Strands(Retried(db, id, attempts[..k]), id, attempts[k])
  }

  lemma NoneStrandsStep(db: Db, id: Id, attempts: seq<Attempt>)
    requires attempts != []
    ensures var n := |attempts| - 1;
            NoneStrands(db, id, attempts)
            <==> NoneStrands(db, id, attempts[..n]) && !Strands(Retried(db, id, attempts[..n]), id, attempts[n])
  {
    hide Strands, Retried;
    var n := |attempts| - 1;
    forall k | 0 <= k < n ensures attempts[..n][..k] == attempts[..k] && attempts[..n][k] == attempts[k] {
    }
  }

  /** Stated about the user the attempt was about. */
  lemma CertOfAttempt(db: Db, id: Id, a: Attempt)
    requires WellFormed(db) && id in db.requests && db.requests[id].status in {Pending, Failed}
    ensures var (after, reply) := Provisioned(db, id, a);
            var r := db.requests[id];
            var u := Target(db, r);
            var needed := u in after.users ==> after.users[u].certStatus != Active;
            && (needed <==> NeedsCert(db, r) && !AfterCommit(a.fault) && reply != Done)
            && (!needed ==> (Cert(r.serverId, after.users[u].commonName) in after.certs
                             <==> (NeedsCert(db, r) || HasCert(db, r)) && !Strands(db, id, a)))
  {
    hide WellFormed, Target, AddMemberships;
    LoadedIsTarget(db, db.requests[id], a.commonName);
  }

  lemma CertStep(db: Db, id: Id, a: Attempt)
    requires WellFormed(db) && id in db.requests && db.requests[id].status in {Pending, Failed}
    ensures var (after, reply) := Provisioned(db, id, a);
            var r := db.requests[id];
            && (NeedsCert(after, r) <==> NeedsCert(db, r) && !AfterCommit(a.fault) && reply != Done)
            && (!NeedsCert(after, r) ==> (HasCert(after, r)
                                          <==> (NeedsCert(db, r) || HasCert(db, r)) && !Strands(db, id, a)))
  {
    hide Provisioned, WellFormed, Target, Strands, Framed;
    AttemptIsFramed(db, id, a);
    AttemptIsWellFormed(db, id, a);
    TargetStays(db, id, Provisioned(db, id, a).0);
    CertOfAttempt(db, id, a);
  }

  ghost predicate CertState(db: Db, id: Id, attempts: seq<Attempt>)
    requires id in db.requests
  {
    var (r, now) := (db.requests[id], Retried(db, id, attempts));
    && (NeedsCert(now, r) ==> NeedsCert(db, r) && NoneStrands(db, id, attempts))
    && (!NeedsCert(now, r) ==>
          (HasCert(now, r) <==> (NeedsCert(db, r) || HasCert(db, r)) && NoneStrands(db, id, attempts)))
  }

  lemma SamePair(db: Db, r: Request, other: Request)
    requires r.email == other.email && r.serverId == other.serverId
    ensures (NeedsCert(db, r) <==> NeedsCert(db, other)) && (HasCert(db, r) <==> HasCert(db, other))
  {
    TargetOfPair(db, r, other);
  }

  lemma {:induction false} CertStateHolds(db: Db, id: Id, attempts: seq<Attempt>)
    requires WellFormed(db) && id in db.requests && db.requests[id].status in {Pending, Failed}
    ensures CertState(db, id, attempts)
  {
    hide NeedsCert, HasCert, Strands, Provisioned, WellFormed, NoneStrands, RetryState;
    if attempts == [] {
      NoAttempts(db, id);
    } else {
      var n := |attempts| - 1;
      var (now, r) := (Retried(db, id, attempts[..n]), db.requests[id]);
      CertStateHolds(db, id, attempts[..n]);
      NoneStrandsStep(db, id, attempts);
      RetriesAreIdempotent(db, id, attempts[..n]);
      RetryStateMeans(db, id, now);
      SamePair(now, r, now.requests[id]);
      if now.requests[id].status == Approved {
        NeededByStranding(now, id, attempts[n]);
      } else {
        CertStep(now, id, attempts[n]);
        SamePair(Provisioned(now, id, attempts[n]).0, r, now.requests[id]);
        NeededByStranding(now, id, attempts[n]);
      }
    }
  }

  lemma NoAttempts(db: Db, id: Id)
    ensures Retried(db, id, []) == db && NoneStrands(db, id, [])
  {
  }

  lemma NeededByStranding(db: Db, id: Id, a: Attempt)
    ensures Strands(db, id, a) ==>
              id in db.requests && db.requests[id].status != Approved && NeedsCert(db, db.requests[id]) && AfterCommit(a.fault)
  {
  }

  lemma RetryStateMeans(db: Db, id: Id, now: Db)
    requires WellFormed(db) && id in db.requests && db.requests[id].status in {Pending, Failed} && RetryState(db, id, now)
    ensures WellFormed(now) && id in now.requests && now.requests[id].status in {Pending, Failed, Approved}
    ensures now.requests[id].email == db.requests[id].email && now.requests[id].serverId == db.requests[id].serverId
    ensures now.requests[id].status == Approved ==> !NeedsCert(now, db.requests[id])
  {
    hide WellFormed, Target, OtherCertsStay, OthersMembershipsStay, AddMemberships;
    TargetStays(db, id, now);
  }

  /** Exactly when a request approved by a run of attempts has the certificate of
      its user on the server: no attempt stranded it, and it was there at the start
      if the user already counted as having one. */
  lemma {:induction false} ApprovedHasCertIff(db: Db, id: Id, attempts: seq<Attempt>)
    requires WellFormed(db) && id in db.requests && db.requests[id].status in {Pending, Failed}
    requires id in Retried(db, id, attempts).requests && Retried(db, id, attempts).requests[id].status == Approved
    ensures var r := db.requests[id];
            HasCert(Retried(db, id, attempts), r)
            <==> (NeedsCert(db, r) || HasCert(db, r)) && NoneStrands(db, id, attempts)
  {
    hide NeedsCert, HasCert, NoneStrands, RetryState, Retried, WellFormed;
    CertStateHolds(db, id, attempts);
    RetriesAreIdempotent(db, id, attempts);
    RetryStateMeans(db, id, Retried(db, id, attempts));
  }

  /** Any request whose user needs a certificate can come to this: the audit entry
      of the approval fails, the certificate is revoked, and the retry approves. */
  lemma {:induction false} ApprovedWithoutCert(db: Db, id: Id, commonName: string)
    requires WellFormed(db) && id in db.requests && db.requests[id].status in {Pending, Failed}
    requires NeedsCert(db, db.requests[id])
    ensures var now := Retried(db, id, [Attempt(commonName, AuditApproved, false), Attempt(commonName, NoFault, false)]);
            var r := db.requests[id];
            && id in now.requests && now.requests[id].status == Approved && Target(db, r) in now.users
            && now.users[Target(db, r)].isEnabled && now.users[Target(db, r)].certStatus == Active
            && Cert(r.serverId, now.users[Target(db, r)].commonName) !in now.certs
  {
    hide *;
    var (first, second, r) := (Attempt(commonName, AuditApproved, false), Attempt(commonName, NoFault, false), db.requests[id]);
    var mid := Provisioned(db, id, first).0;
    AttemptFails(db, id, first);
    AttemptIsWellFormed(db, id, first);
    AttemptCompletes(mid, id, second);
    FaultIsAfterCommit();
    TwoAttempts(db, id, first, second);
    ApprovedHasCertIff(db, id, [first, second]);
    RetriesAreIdempotent(db, id, [first, second]);
    ApprovedMeans(db, id, Retried(db, id, [first, second]));
  }

  lemma FaultIsAfterCommit()
    ensures AfterCommit(AuditApproved)
  {
  }

  lemma AttemptFails(db: Db, id: Id, a: Attempt)
    requires WellFormed(db) && id in db.requests && a.fault == AuditApproved
    ensures id in Provisioned(db, id, a).0.requests && Provisioned(db, id, a).0.requests[id].status == Failed
  {
    AttemptEnds(db, id, a);
  }

  lemma AttemptCompletes(db: Db, id: Id, a: Attempt)
    requires WellFormed(db) && id in db.requests && a.fault == NoFault
    ensures id in Provisioned(db, id, a).0.requests && Provisioned(db, id, a).0.requests[id].status == Approved
  {
    AttemptEnds(db, id, a);
  }

  lemma TwoAttempts(db: Db, id: Id, a: Attempt, b: Attempt)
    requires id in db.requests && db.requests[id].status in {Pending, Failed}
    requires id in Provisioned(db, id, a).0.requests && Provisioned(db, id, a).0.requests[id].status == Failed
    ensures Retried(db, id, [a, b]) == Provisioned(Provisioned(db, id, a).0, id, b).0
    ensures NeedsCert(db, db.requests[id]) && AfterCommit(a.fault) && !a.revokeFails ==> !NoneStrands(db, id, [a, b])
  {
    hide Provisioned, NeedsCert, AfterCommit;
    var attempts := [a, b];
    assert attempts[..0] == [] && attempts[..1] == [a] && [a][..0] == [];
    assert Retried(db, id, attempts[..0]) == db;
    assert Retried(db, id, [a]) == Provisioned(db, id, a).0;
  }

  lemma ApprovedMeans(db: Db, id: Id, now: Db)
    requires WellFormed(db) && id in db.requests && RetryState(db, id, now)
    requires id in now.requests && now.requests[id].status == Approved
    ensures var (r, u) := (db.requests[id], Target(db, db.requests[id]));
            && u in now.users && now.users[u].isEnabled && now.users[u].certStatus == Active
            && (HasCert(now, r) <==> Cert(r.serverId, now.users[u].commonName) in now.certs)
  {
    hide WellFormed, Target, OtherCertsStay, OthersMembershipsStay, AddMemberships;
    TargetStays(db, id, now);
  }

  lemma AtMostOne(s: set<Id>, a: Id, b: Id)
    requires |s| <= 1 && a in s && b in s
    ensures a == b
  {
    assert |s - {a}| == 0;
  }

  lemma SmallSet(s: set<Id>, u: Id)
    requires s <= {u}
    ensures |s| <= 1
  {
    if s != {} {
      assert s == {u};
    }
  }
}
