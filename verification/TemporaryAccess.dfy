/** Temporary grants: their expiry by the system, with a roll-back when the user's
    CCD cannot be pushed, next to creation and revocation by administrators. */
module TemporaryAccess {
  import opened Text
  import opened Collections

  type Id = nat

  datatype Grant = Grant(userId: string, groupId: string, serverId: string, expiresAt: int,
                         isActive: bool, revokedAt: Option<int>, revokedBy: Option<string>)

  datatype SyncStatus = Pending | Failed | Success

  datatype User = User(isEnabled: bool, ccdSyncStatus: SyncStatus)

  type Grants = map<Id, Grant>
  type Users = map<string, User>

  const SYSTEM: string := "system"

  // Pushing a CCD -------------------------------------------------------------

  /** How the transport behaves: the text cannot be generated or sent; the write
      command fails; the notification after it throws; everything works. */
  datatype Transport = Throws | ExitsNonZero | KillThrows | Works

  /** The status a user is left with, and whether nothing was thrown. */
  function SyncedUser(u: User, managed: bool, transport: Transport): (r: (User, bool)) {
    if !managed then (u.(ccdSyncStatus := Pending), false)
    else if !u.isEnabled then (u.(ccdSyncStatus := Pending), true)
    else match transport
         case Throws => (u.(ccdSyncStatus := Pending), false)
         case ExitsNonZero => (u.(ccdSyncStatus := Failed), false)
         case KillThrows => (u.(ccdSyncStatus := Pending), false)
         case Works => (u.(ccdSyncStatus := Success), true)
  }

  /** A user that does not exist needs no push. */
  function Synced(users: Users, userId: string, managed: bool, transport: Transport): (Users, bool) {
    if userId !in users then (users, true)
    else
      var r := SyncedUser(users[userId], managed, transport);
      (users[userId := r.0], r.1)
  }

  // Expiry --------------------------------------------------------------------

  datatype Filter = Filter(userId: Option<string>, serverId: Option<string>)

  /** An absent or empty filter selects everything. */
  predicate Selects(filter: Option<string>, value: string) {
    filter.None? || filter.value == "" || value == filter.value
  }

  predicate Matches(g: Grant, filter: Filter, now: int) {
    && g.isActive && g.expiresAt <= now
    && Selects(filter.userId, g.userId) && Selects(filter.serverId, g.serverId)
  }

  /** The answer to the query: every matching grant once, the earliest expiry first. */
  ghost predicate IsSelection(grants: Grants, filter: Filter, now: int, selected: seq<Id>) {
    && (forall id :: id in selected <==> id in grants && Matches(grants[id], filter, now))
    && (forall i, j :: 0 <= i < j < |selected| ==>
          && selected[i] != selected[j]
          && selected[i] in grants && selected[j] in grants
          && grants[selected[i]].expiresAt <= grants[selected[j]].expiresAt)
  }

  /** What happens while one grant is closed: the push, and whether the audit entry
      can be written. */
  datatype Attempt = Attempt(transport: Transport, auditWorks: bool)

  function Closed(g: Grant, at: int, actor: string): Grant {
    g.(isActive := false, revokedAt := Some(at), revokedBy := Some(actor))
  }

  function Restored(g: Grant): Grant {
    g.(isActive := true, revokedAt := None, revokedBy := None)
  }

  datatype Store = Store(grants: Grants, users: Users, audits: seq<Id>)

  datatype Progress = Progress(store: Store, expired: seq<Id>, failed: seq<Id>)

  /** Close one grant, push, audit; roll back when something is thrown. */
  function CloseOne(p: Progress, id: Id, managed: bool, attempt: Attempt, at: int): Progress
    requires id in p.store.grants
  {
    var g := p.store.grants[id];
    var push := Synced(p.store.users, g.userId, managed, attempt.transport);
    if push.1 && attempt.auditWorks then
      Progress(Store(p.store.grants[id := Closed(g, at, SYSTEM)], push.0, p.store.audits + [id]), p.expired + [id], p.failed)
    else
      Progress(Store(p.store.grants[id := Restored(g)], push.0, p.store.audits), p.expired, p.failed + [id])
  }

  predicate Present(grants: Grants, ids: seq<Id>) {
    forall i :: 0 <= i < |ids| ==> ids[i] in grants
  }

  function Reconciled(s: Store, selected: seq<Id>, managed: bool, attempts: seq<Attempt>, at: int): (p: Progress)
    requires |attempts| == |selected| && Present(s.grants, selected)
    ensures p.store.grants.Keys == s.grants.Keys
  {
    if selected == [] then Progress(s, [], [])
    else
      var n := |selected| - 1;
      CloseOne(Reconciled(s, selected[..n], managed, attempts[..n], at), selected[n], managed, attempts[n], at)
  }

  class AccessStore {
    var grants: Grants
    var users: Users
    var audits: seq<Id>

    constructor ()
      ensures Contents() == Store(map[], map[], [])
    {
      grants, users, audits := map[], map[], [];
    }

    function Contents(): Store
      reads this
    {
      Store(grants, users, audits)
    }

    method SyncUserCcdAfterAccessChange(userId: string, managed: bool, transport: Transport) returns (ok: bool)
      modifies this`users
      ensures (users, ok) == Synced(old(users), userId, managed, transport)
    {
      if userId !in users {
        return true;
      }
      ghost var left := SyncedUser(users[userId], managed, transport).0;
      users := users[userId := users[userId].(ccdSyncStatus := Pending)];
      assert users[userId := left] == old(users)[userId := left];
      if !managed {
        return false;
      }
      if !users[userId].isEnabled {
        return true;
      }
      if transport.Throws? {
        return false;
      }
      if transport.ExitsNonZero? {
        users := users[userId := users[userId].(ccdSyncStatus := Failed)];
        return false;
      }
      if transport.KillThrows? {
        return false;
      }
      users := users[userId := users[userId].(ccdSyncStatus := Success)];
      return true;
    }

    /** The body of the loop, for one grant. */
    method CloseExpired(id: Id, managed: bool, attempt: Attempt, expiredAt: int,
                        ghost expired: seq<Id>, ghost failed: seq<Id>) returns (ok: bool)
      requires id in grants
      modifies this
      ensures grants.Keys == old(grants.Keys)
      ensures CloseOne(Progress(old(Contents()), expired, failed), id, managed, attempt, expiredAt)
              == Progress(Contents(), if ok then expired + [id] else expired, if ok then failed else failed + [id])
    {
      hide Synced;
      var grant := grants[id];
      grants := grants[id := Closed(grant, expiredAt, SYSTEM)];
      ok := SyncUserCcdAfterAccessChange(grant.userId, managed, attempt.transport);
      ok := ok && attempt.auditWorks;
      if ok {
        audits := audits + [id];
      } else {
        grants := grants[id := Restored(grants[id])];
        assert grants == old(grants)[id := Restored(grant)];
      }
    }

    method ReconcileExpiredTemporaryAccess(selected: seq<Id>, managed: bool, attempts: seq<Attempt>, expiredAt: int)
      returns (expiredCount: nat, failedCount: nat)
      requires |attempts| == |selected| && Present(grants, selected)
      modifies this
      ensures var p := Reconciled(old(Contents()), selected, managed, attempts, expiredAt);
              Contents() == p.store && expiredCount == |p.expired| && failedCount == |p.failed|
    {
      hide Synced, CloseOne;
      var syncedExpiredGrantIds: seq<Id> := [];
      var failedGrantIds: seq<Id> := [];
      for i := 0 to |selected|
        invariant grants.Keys == old(grants.Keys)
        invariant Progress(Contents(), syncedExpiredGrantIds, failedGrantIds)
                  == Reconciled(old(Contents()), selected[..i], managed, attempts[..i], expiredAt)
      {
        assert selected[..i + 1][..i] == selected[..i] && attempts[..i + 1][..i] == attempts[..i];
        var ok := CloseExpired(selected[i], managed, attempts[i], expiredAt, syncedExpiredGrantIds, failedGrantIds);
        if ok {
          syncedExpiredGrantIds := syncedExpiredGrantIds + [selected[i]];
        } else {
          failedGrantIds := failedGrantIds + [selected[i]];
        }
      }
      assert selected[..|selected|] == selected && attempts[..|attempts|] == attempts;
      return |syncedExpiredGrantIds|, |failedGrantIds|;
    }
  }

  // One run ---------------------------------------------------------------------

  /** Active grants carry no revocation. */
  predicate Consistent(grants: Grants) {
    forall id :: id in grants && grants[id].isActive ==> grants[id].revokedAt == None && grants[id].revokedBy == None
  }

  /** Each selected grant is expired or failed, once; an expired one is closed by the
      system, a failed one is exactly as it was; every other grant is untouched; and
      the audit entries are those of the expired ones, in order. */
  ghost predicate RunOutcome(s: Store, selected: seq<Id>, at: int, p: Progress) {
    && |p.expired| + |p.failed| == |selected|
    && (forall id :: id in selected <==> id in p.expired || id in p.failed)
    && (forall id :: id in p.expired ==> id !in p.failed)
    && NoRepeats(p.expired) && NoRepeats(p.failed)
    && (forall id :: id in p.expired ==>
          id in s.grants && id in p.store.grants && p.store.grants[id] == Closed(s.grants[id], at, SYSTEM))
    && (forall id :: id in s.grants && id !in p.expired ==> id in p.store.grants && p.store.grants[id] == s.grants[id])
    && p.store.grants.Keys == s.grants.Keys
    && p.store.audits == s.audits + p.expired
  }

  lemma RestoredIsOriginal(g: Grant)
    requires g.isActive && g.revokedAt == None && g.revokedBy == None
    ensures Restored(g) == g
  {
  }

  lemma CloseOneOutcome(s: Store, selected: seq<Id>, p: Progress, id: Id, managed: bool, attempt: Attempt, at: int)
    requires RunOutcome(s, selected, at, p) && id in s.grants && id !in selected
    requires s.grants[id].isActive && Consistent(s.grants)
    ensures RunOutcome(s, selected + [id], at, CloseOne(p, id, managed, attempt, at))
  {
    hide Synced;
    RestoredIsOriginal(s.grants[id]);
  }

  lemma {:induction false} RunHasOutcome(s: Store, selected: seq<Id>, managed: bool, attempts: seq<Attempt>, at: int)
    requires |attempts| == |selected| && Present(s.grants, selected)
    requires Consistent(s.grants) && NoRepeats(selected)
    requires forall i :: 0 <= i < |selected| ==> s.grants[selected[i]].isActive
    ensures RunOutcome(s, selected, at, Reconciled(s, selected, managed, attempts, at))
  {
    hide RunOutcome, Consistent, CloseOne;
    if selected == [] {
      NothingSelected(s, at);
    } else {
      var n := |selected| - 1;
      RunHasOutcome(s, selected[..n], managed, attempts[..n], at);
      assert selected == selected[..n] + [selected[n]];
      CloseOneOutcome(s, selected[..n], Reconciled(s, selected[..n], managed, attempts[..n], at), selected[n], managed,
                      attempts[n], at);
    }
  }

  lemma NothingSelected(s: Store, at: int)
    ensures RunOutcome(s, [], at, Progress(s, [], []))
  {
  }

  lemma SelectionIsActive(grants: Grants, filter: Filter, now: int, selected: seq<Id>)
    requires IsSelection(grants, filter, now, selected)
    ensures Present(grants, selected) && NoRepeats(selected)
    ensures forall i :: 0 <= i < |selected| ==> grants[selected[i]].isActive && grants[selected[i]].expiresAt <= now
  {
    forall i | 0 <= i < |selected| ensures selected[i] in grants && Matches(grants[selected[i]], filter, now) {
      assert selected[i] in selected;
    }
  }

  predicate LiveAt(g: Grant, t: int) {
    g.isActive && g.expiresAt > t
  }

  /** A run does not change what any user may reach: at its time and after, the same
      grants are live before and after it, whatever fails. */
  lemma RunKeepsLiveGrants(s: Store, filter: Filter, now: int, selected: seq<Id>, managed: bool, attempts: seq<Attempt>,
                           at: int, t: int)
    requires |attempts| == |selected| && IsSelection(s.grants, filter, now, selected) && Consistent(s.grants) && now <= t
    requires Present(s.grants, selected)
    ensures forall id :: id in s.grants ==>
              (LiveAt(Reconciled(s, selected, managed, attempts, at).store.grants[id], t) <==> LiveAt(s.grants[id], t))
  {
    SelectionIsActive(s.grants, filter, now, selected);
    RunHasOutcome(s, selected, managed, attempts, at);
    hide IsSelection, Reconciled, Consistent, NoRepeats;
    var p := Reconciled(s, selected, managed, attempts, at);
    forall id | id in s.grants ensures LiveAt(p.store.grants[id], t) <==> LiveAt(s.grants[id], t) {
      if id in p.expired {
        assert id in selected;
        var i :| 0 <= i < |selected| && selected[i] == id;
      }
    }
  }

  // Which grants a run closes ---------------------------------------------------------

  /** No push is needed, or server management is on and there is nothing to write or
      the transport works. */
  predicate GoesThrough(users: Users, userId: string, managed: bool, transport: Transport) {
    userId in users ==> managed && (users[userId].isEnabled ==> transport == Works)
  }

  /** The status of a user that was pushed: SUCCESS when the text was written and the
      notification sent, FAILED when the write command failed, else PENDING. */
  predicate LeftBy(status: SyncStatus, isEnabled: bool, managed: bool, transport: Transport) {
    && (status == Success <==> managed && isEnabled && transport == Works)
    && (status == Failed <==> managed && isEnabled && transport == ExitsNonZero)
  }

  /** A push touches the status of its user only. */
  lemma PushMeans(users: Users, userId: string, managed: bool, transport: Transport)
    ensures var (after, ok) := Synced(users, userId, managed, transport);
            && (ok <==> GoesThrough(users, userId, managed, transport))
            && after.Keys == users.Keys
            && (forall u :: u in users ==> after[u].isEnabled == users[u].isEnabled)
            && (forall u :: u in users && u != userId ==> after[u] == users[u])
            && (userId in users ==> LeftBy(after[userId].ccdSyncStatus, users[userId].isEnabled, managed, transport))
  {
  }

  lemma LastClosed(s: Store, selected: seq<Id>, managed: bool, attempts: seq<Attempt>, at: int)
    requires |attempts| == |selected| && Present(s.grants, selected) && selected != []
    ensures var n := |selected| - 1;
            var (before, after) := (Reconciled(s, selected[..n], managed, attempts[..n], at), Reconciled(s, selected, managed, attempts, at));
            var push := Synced(before.store.users, before.store.grants[selected[n]].userId, managed, attempts[n].transport);
            && after.store.users == push.0
            && after.expired == (if push.1 && attempts[n].auditWorks then before.expired + [selected[n]] else before.expired)
            && forall id :: id in s.grants ==> after.store.grants[id].userId == before.store.grants[id].userId
  {
    hide Synced;
  }

  /** A run keeps who is a user, who is enabled, and whose a grant is. */
  lemma {:induction false} RunKeepsUsers(s: Store, selected: seq<Id>, managed: bool, attempts: seq<Attempt>, at: int)
    requires |attempts| == |selected| && Present(s.grants, selected)
    ensures var after := Reconciled(s, selected, managed, attempts, at).store;
            && after.users.Keys == s.users.Keys
            && (forall u :: u in s.users ==> after.users[u].isEnabled == s.users[u].isEnabled)
            && (forall id :: id in s.grants ==> after.grants[id].userId == s.grants[id].userId)
  {
    hide Synced, CloseOne;
    if selected != [] {
      var n := |selected| - 1;
      RunKeepsUsers(s, selected[..n], managed, attempts[..n], at);
      var before := Reconciled(s, selected[..n], managed, attempts[..n], at).store;
      LastClosed(s, selected, managed, attempts, at);
      PushMeans(before.users, before.grants[selected[n]].userId, managed, attempts[n].transport);
    }
  }

  /** The last grant of a run belongs to the expired ones exactly when its push goes
      through and its audit entry is written. */
  lemma LastOfRun(s: Store, selected: seq<Id>, managed: bool, attempts: seq<Attempt>, at: int)
    requires |attempts| == |selected| && Present(s.grants, selected) && selected != []
    ensures var n := |selected| - 1;
            var before := Reconciled(s, selected[..n], managed, attempts[..n], at);
            var ok := attempts[n].auditWorks && GoesThrough(s.users, s.grants[selected[n]].userId, managed, attempts[n].transport);
            Reconciled(s, selected, managed, attempts, at).expired == if ok then before.expired + [selected[n]] else before.expired
  {
    hide Synced, CloseOne, GoesThrough;
    var n := |selected| - 1;
    LastClosed(s, selected, managed, attempts, at);
    RunKeepsUsers(s, selected[..n], managed, attempts[..n], at);
    var before := Reconciled(s, selected[..n], managed, attempts[..n], at).store;
    PushMeans(before.users, before.grants[selected[n]].userId, managed, attempts[n].transport);
    SameGoesThrough(before.users, s.users, before.grants[selected[n]].userId, managed, attempts[n].transport);
  }

  lemma SameGoesThrough(a: Users, b: Users, userId: string, managed: bool, transport: Transport)
    requires a.Keys == b.Keys && forall u :: u in a ==> a[u].isEnabled == b[u].isEnabled
    ensures GoesThrough(a, userId, managed, transport) <==> GoesThrough(b, userId, managed, transport)
  {
  }

  lemma {:induction false} ExpiredAreSelected(s: Store, selected: seq<Id>, managed: bool, attempts: seq<Attempt>, at: int)
    requires |attempts| == |selected| && Present(s.grants, selected)
    ensures forall id :: id in Reconciled(s, selected, managed, attempts, at).expired ==> id in selected
  {
    hide CloseOne, GoesThrough;
    if selected != [] {
      ExpiredAreSelected(s, selected[..|selected| - 1], managed, attempts[..|selected| - 1], at);
      LastOfRun(s, selected, managed, attempts, at);
      hide Reconciled;
      assert selected == selected[..|selected| - 1] + [selected[|selected| - 1]];
    }
  }

  /** Which selected grant is expired and which is restored: decided by its own push
      and its own audit entry, whatever happens to the others. */
  lemma {:induction false} ExpiredIff(s: Store, selected: seq<Id>, managed: bool, attempts: seq<Attempt>, at: int, k: nat)
    requires |attempts| == |selected| && Present(s.grants, selected) && NoRepeats(selected) && k < |selected|
    ensures selected[k] in Reconciled(s, selected, managed, attempts, at).expired
            <==> && attempts[k].auditWorks
                 && (s.grants[selected[k]].userId !in s.users
                     || (managed && (!s.users[s.grants[selected[k]].userId].isEnabled || attempts[k].transport == Works)))
  {
    hide Reconciled;
    var n := |selected| - 1;
    LastOfRun(s, selected, managed, attempts, at);
    if k < n {
      ExpiredIff(s, selected[..n], managed, attempts[..n], at, k);
    } else {
      ExpiredAreSelected(s, selected[..n], managed, attempts[..n], at);
    }
  }

  /** What a run does to the grants, in terms of the rows before it: it closes, as
      "system" and at its time, exactly the active grants that are due and meet the
      filter and whose own push and audit entry succeed; no other row changes. */
  lemma {:induction false} RunClosesIff(s: Store, filter: Filter, now: int, selected: seq<Id>, managed: bool, attempts: seq<Attempt>,
                                        at: int, k: nat, id: Id)
    requires |attempts| == |selected| && IsSelection(s.grants, filter, now, selected) && Consistent(s.grants)
    requires Present(s.grants, selected) && id in s.grants
    requires id in selected ==> k < |selected| && selected[k] == id
    ensures var g := s.grants[id];
            var due := g.isActive && g.expiresAt <= now
              && (filter.userId.None? || filter.userId.value == "" || filter.userId.value == g.userId)
              && (filter.serverId.None? || filter.serverId.value == "" || filter.serverId.value == g.serverId);
            && (due <==> id in selected)
            && Reconciled(s, selected, managed, attempts, at).store.grants[id]
               == if due && attempts[k].auditWorks
                     && (g.userId !in s.users || (managed && (!s.users[g.userId].isEnabled || attempts[k].transport == Works)))
                  then Grant(g.userId, g.groupId, g.serverId, g.expiresAt, false, Some(at), Some("system"))
                  else g
  {
    SelectionIsActive(s.grants, filter, now, selected);
    RunHasOutcome(s, selected, managed, attempts, at);
    hide Reconciled, NoRepeats, Consistent;
    if id in selected {
      ExpiredIff(s, selected, managed, attempts, at, k);
    }
  }

  /** The status of every user behind a run: left by the last push for one of its
      grants, and as it was if there was none. */
  lemma {:induction false} StatusAfterRun(s: Store, selected: seq<Id>, managed: bool, attempts: seq<Attempt>, at: int,
                                          userId: string, k: nat)
    requires |attempts| == |selected| && Present(s.grants, selected) && userId in s.users
    requires k < |selected| ==> s.grants[selected[k]].userId == userId
    requires forall j :: k < j < |selected| ==> s.grants[selected[j]].userId != userId
    requires k >= |selected| ==> forall j :: 0 <= j < |selected| ==> s.grants[selected[j]].userId != userId
    ensures var after := Reconciled(s, selected, managed, attempts, at).store.users;
            && userId in after
            && if k < |selected| then LeftBy(after[userId].ccdSyncStatus, s.users[userId].isEnabled, managed, attempts[k].transport)
               else after[userId] == s.users[userId]
  {
    hide Synced, LeftBy, CloseOne, Reconciled;
    if selected == [] {
      NothingClosed(s, managed, at);
    } else {
      var n := |selected| - 1;
      var before := Reconciled(s, selected[..n], managed, attempts[..n], at).store;
      LastClosed(s, selected, managed, attempts, at);
      RunKeepsUsers(s, selected[..n], managed, attempts[..n], at);
      PushMeans(before.users, before.grants[selected[n]].userId, managed, attempts[n].transport);
      if k != n {
        StatusAfterRun(s, selected[..n], managed, attempts[..n], at, userId, k);
      }
    }
  }

  lemma NothingClosed(s: Store, managed: bool, at: int)
    ensures Reconciled(s, [], managed, [], at) == Progress(s, [], [])
  {
  }

  // All runs ----------------------------------------------------------------------

  datatype Event =
    | Create(userId: string, groupId: string, serverId: string, expiresAt: int, admitted: bool, managed: bool,
             transport: Transport, now: int)
    | Revoke(id: Id, userId: string, actor: string, managed: bool, transport: Transport, now: int)
    | Reconcile(filter: Filter, now: int, selected: seq<Id>, managed: bool, attempts: seq<Attempt>, expiredAt: int)
    | ChangeUsers(changed: Users)
    | Delete(gone: set<Id>)

  datatype State = State(store: Store, nextId: Id)

  /** Administrators are known by an e-mail address, never as "system". */
  ghost predicate Possible(s: State, e: Event) {
    match e
    case Revoke(_, _, actor, _, _, _) => actor != SYSTEM
    case Reconcile(filter, now, selected, _, attempts, _) =>
      |attempts| == |selected| && IsSelection(s.store.grants, filter, now, selected) && Present(s.store.grants, selected)
    case _ => true
  }

  /** A grant that cannot be pushed is deleted again. `admitted` stands for the checks
      on the group and on other grants of the user. */
  function Created(s: State, e: Event): State
    requires e.Create?
  {
    if e.userId !in s.store.users || e.expiresAt <= e.now || !e.admitted then s
    else
      var enabled := s.store.users[e.userId := s.store.users[e.userId].(isEnabled := true)];
      var push := Synced(enabled, e.userId, e.managed, e.transport);
      var g := Grant(e.userId, e.groupId, e.serverId, e.expiresAt, true, None, None);
      State(s.store.(users := push.0, grants := if push.1 then s.store.grants[s.nextId := g] else s.store.grants),
            s.nextId + 1)
  }

  /** Revocation is about a grant of that user, and looks at neither the state of the
      grant nor who closed it; when the push fails the row is put back as it was read. */
  function Revoked(s: State, e: Event): State
    requires e.Revoke?
  {
    if e.id !in s.store.grants || s.store.grants[e.id].userId != e.userId then s
    else
      var g := s.store.grants[e.id];
      var push := Synced(s.store.users, g.userId, e.managed, e.transport);
      s.(store := s.store.(users := push.0,
                           grants := if push.1 then s.store.grants[e.id := Closed(g, e.now, e.actor)] else s.store.grants))
  }

  function Step(s: State, e: Event): State
    requires e.Reconcile? ==> |e.attempts| == |e.selected| && Present(s.store.grants, e.selected)
  {
    match e
    case Create(_, _, _, _, _, _, _, _) => Created(s, e)
    case Revoke(_, _, _, _, _, _) => Revoked(s, e)
    case Reconcile(_, _, selected, managed, attempts, expiredAt) =>
      s.(store := Reconciled(s.store, selected, managed, attempts, expiredAt).store)
    case ChangeUsers(changed) => s.(store := s.store.(users := changed))
    case Delete(gone) => s.(store := s.store.(grants := s.store.grants - gone))
  }

  /** Granting access: refused without a user, without a future expiry, or by the other
      checks; else the user is enabled, and the new row stays exactly when server
      management is on and the transport works. */
  lemma CreatedMeans(s: State, e: Event)
    requires e.Create?
    ensures var t := Step(s, e);
            var refused := e.userId !in s.store.users || e.now >= e.expiresAt || !e.admitted;
            var granted := !refused && e.managed && e.transport == Works;
            && (refused ==> t == s)
            && (!refused ==>
                  && t.nextId == s.nextId + 1 && t.store.users.Keys == s.store.users.Keys && t.store.users[e.userId].isEnabled
                  && LeftBy(t.store.users[e.userId].ccdSyncStatus, true, e.managed, e.transport)
                  && forall u :: u in s.store.users && u != e.userId ==> t.store.users[u] == s.store.users[u])
            && t.store.audits == s.store.audits
            && t.store.grants == if granted
                 then s.store.grants[s.nextId := Grant(e.userId, e.groupId, e.serverId, e.expiresAt, true, None, None)]
                 else s.store.grants
  {
    hide Synced;
    if e.userId in s.store.users {
      var enabled := s.store.users[e.userId := s.store.users[e.userId].(isEnabled := true)];
      PushMeans(enabled, e.userId, e.managed, e.transport);
    }
  }

  /** Revoking: a grant of that user is closed in the name of the administrator exactly
      when the push goes through, and left as it was otherwise; any other is not found. */
  lemma RevokedMeans(s: State, e: Event)
    requires e.Revoke?
    ensures var t := Step(s, e);
            var found := e.id in s.store.grants && s.store.grants[e.id].userId == e.userId;
            && (!found ==> t == s)
            && t.nextId == s.nextId && t.store.audits == s.store.audits && t.store.grants.Keys == s.store.grants.Keys
            && (forall id :: id in s.store.grants && id != e.id ==> t.store.grants[id] == s.store.grants[id])
            && (found ==>
                  var g := s.store.grants[e.id];
                  && t.store.grants[e.id] == (if GoesThrough(s.store.users, e.userId, e.managed, e.transport)
                       then Grant(g.userId, g.groupId, g.serverId, g.expiresAt, false, Some(e.now), Some(e.actor)) else g)
                  && t.store.users.Keys == s.store.users.Keys
                  && (forall u :: u in s.store.users && u != e.userId ==> t.store.users[u] == s.store.users[u])
                  && (e.userId in s.store.users ==>
                        LeftBy(t.store.users[e.userId].ccdSyncStatus, s.store.users[e.userId].isEnabled, e.managed, e.transport)))
  {
    hide Synced, LeftBy, GoesThrough;
    if e.id in s.store.grants {
      PushMeans(s.store.users, s.store.grants[e.id].userId, e.managed, e.transport);
    }
  }

  ghost function Run(events: seq<Event>): State {
    if events == [] then State(Store(map[], map[], []), 0)
    else
      var s := Run(events[..|events| - 1]);
      var e := events[|events| - 1];
      if Possible(s, e) then Step(s, e) else s
  }

  /** A grant that the system has closed. */
  predicate ClosedBySystem(g: Grant) {
    g.revokedBy == Some(SYSTEM)
  }

  ghost predicate Good(s: State) {
    && Consistent(s.store.grants)
    && (forall id :: id in s.store.grants ==> id < s.nextId)
    && (forall id :: id in s.store.audits ==> id < s.nextId)
    && NoRepeats(s.store.audits)
    && (forall id :: id in s.store.grants && ClosedBySystem(s.store.grants[id]) ==> id in s.store.audits)
    && (forall id :: id in s.store.grants && id in s.store.audits ==> !s.store.grants[id].isActive)
  }

  lemma AuditsStayDistinct(audits: seq<Id>, more: seq<Id>)
    requires NoRepeats(audits) && NoRepeats(more) && forall id :: id in more ==> id !in audits
    ensures NoRepeats(audits + more)
  {
    var all := audits + more;
    forall i, j | 0 <= i < j < |all| ensures all[i] != all[j] {
      if i < |audits| <= j {
        assert all[i] in audits && all[j] in more;
      }
    }
  }

  lemma OutcomeKeepsGood(s: State, selected: seq<Id>, at: int, p: Progress)
    requires Good(s) && RunOutcome(s.store, selected, at, p)
    requires forall id :: id in selected ==> id in s.store.grants && s.store.grants[id].isActive
    ensures Good(s.(store := p.store))
  {
    hide NoRepeats;
    AuditsStayDistinct(s.store.audits, p.expired);
    forall id | id in p.store.grants
      ensures p.store.grants[id] == if id in p.expired then Closed(s.store.grants[id], at, SYSTEM) else s.store.grants[id]
    {
      assert id in s.store.grants;
    }
  }

  lemma ReconcileKeepsGood(s: State, e: Event)
    requires Good(s) && e.Reconcile? && Possible(s, e)
    ensures Good(Step(s, e))
  {
    SelectionIsActive(s.store.grants, e.filter, e.now, e.selected);
    RunHasOutcome(s.store, e.selected, e.managed, e.attempts, e.expiredAt);
    hide IsSelection, Reconciled, NoRepeats, RunOutcome;
    OutcomeKeepsGood(s, e.selected, e.expiredAt, Reconciled(s.store, e.selected, e.managed, e.attempts, e.expiredAt));
  }

  lemma StepKeepsGood(s: State, e: Event)
    requires Good(s) && Possible(s, e)
    ensures Good(Step(s, e))
  {
    hide Synced, NoRepeats, Reconciled, IsSelection;
    if e.Reconcile? {
      ReconcileKeepsGood(s, e);
    }
  }

  lemma {:induction false} AlwaysGood(events: seq<Event>)
    ensures Good(Run(events))
  {
    hide Possible, Step, Good;
    if events == [] {
      StartIsGood();
    } else {
      AlwaysGood(events[..|events| - 1]);
      StepIfPossible(events);
    }
  }

  lemma StartIsGood()
    ensures Good(State(Store(map[], map[], []), 0))
  {
  }

  lemma StepIfPossible(events: seq<Event>)
    requires events != [] && Good(Run(events[..|events| - 1]))
    ensures Good(Run(events))
  {
    var s := Run(events[..|events| - 1]);
    var e := events[|events| - 1];
    hide Step, Good;
    if Possible(s, e) {
      StepKeepsGood(s, e);
    }
  }

  /** In every reachable state, a run does just this: expired and failed add up to the
      selected grants, failed ones are exactly as before, all others untouched. */
  lemma {:induction false} EveryRunHasOutcome(events: seq<Event>, e: Event)
    requires e.Reconcile? && Possible(Run(events), e)
    ensures var s := Run(events).store;
            var p := Reconciled(s, e.selected, e.managed, e.attempts, e.expiredAt);
            RunOutcome(s, e.selected, e.expiredAt, p) && Run(events + [e]).store == p.store
  {
    AlwaysGood(events);
    assert (events + [e])[..|events|] == events;
    hide Reconciled, RunOutcome, IsSelection;
    assert Run(events + [e]) == Step(Run(events), e);
    hide Run;
    var s := Run(events).store;
    SelectionIsActive(s.grants, e.filter, e.now, e.selected);
    RunHasOutcome(s, e.selected, e.managed, e.attempts, e.expiredAt);
  }

  ghost predicate Overruled(events: seq<Event>, id: Id) {
    exists i :: 0 <= i < |events| && events[i].Revoke? && events[i].id == id
  }

  ghost function TimesAudited(s: State, id: Id): nat {
    multiset(s.store.audits)[id]
  }

  /** Nobody but an administrator takes a grant out of the hands of the system. */
  lemma {:induction false} AuditedStaysWithSystem(events: seq<Event>, id: Id)
    requires !Overruled(events, id)
    ensures var s := Run(events);
            id in s.store.grants && id in s.store.audits ==> ClosedBySystem(s.store.grants[id])
  {
    if events != [] {
      var init, e := events[..|events| - 1], events[|events| - 1];
      assert events[|events| - 1] == e;
      forall i | 0 <= i < |init| ensures events[i] == init[i] {
      }
      AuditedStaysWithSystem(init, id);
      AlwaysGood(init);
      hide Run;
      RunStep(events);
      if Possible(Run(init), e) {
        StepKeepsSystem(Run(init), e, id);
      }
    }
  }

  lemma RunStep(events: seq<Event>)
    requires events != []
    ensures var s, e := Run(events[..|events| - 1]), events[|events| - 1];
            Run(events) == if Possible(s, e) then Step(s, e) else s
  {
  }

  lemma StepKeepsSystem(s: State, e: Event, id: Id)
    requires Good(s) && Possible(s, e) && !(e.Revoke? && e.id == id)
    requires id in s.store.grants && id in s.store.audits ==> ClosedBySystem(s.store.grants[id])
    ensures var t := Step(s, e);
            id in t.store.grants && id in t.store.audits ==> ClosedBySystem(t.store.grants[id])
  {
    hide Synced, NoRepeats, Reconciled, IsSelection;
    if e.Reconcile? {
      SelectionIsActive(s.store.grants, e.filter, e.now, e.selected);
      RunHasOutcome(s.store, e.selected, e.managed, e.attempts, e.expiredAt);
    }
  }

  /** Over every run: a grant gets at most one expiry audit; it has one as long as it
      is closed by the system; and a grant that no administrator revoked has one
      exactly when the system has closed it. */
  lemma {:induction false} AuditedIffClosedBySystem(events: seq<Event>, id: Id)
    ensures var s := Run(events);
            && TimesAudited(s, id) <= 1
            && (id in s.store.grants && ClosedBySystem(s.store.grants[id]) ==>
                  TimesAudited(s, id) == 1 && !s.store.grants[id].isActive)
            && (id in s.store.grants && !Overruled(events, id) ==>
                  (TimesAudited(s, id) == 1 <==> ClosedBySystem(s.store.grants[id])))
  {
    AlwaysGood(events);
    hide Run;
    var s := Run(events);
    CountWithoutRepeats(s.store.audits, id);
    if !Overruled(events, id) {
      AuditedStaysWithSystem(events, id);
    }
  }
}
