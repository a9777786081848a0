/** Directory sync: the VPN users and group memberships of a server follow the
    listings of the Google groups mapped to its VPN groups. */
module SyncEngine {
  import opened Text
  import opened Schema
  import opened Collections
  import opened CommonNames

  type Uid = nat
  type Gid = string

  type Memberships = map<(Uid, Gid), Source>

  datatype Db = Db(users: Users, memberships: Memberships, flagged: set<Uid>, nextId: Uid)

  /** A member as the directory lists it. */
  datatype Member = Member(email: string, isUser: bool, isActive: bool)

  datatype Mapping = Mapping(id: string, groupId: Gid, members: seq<Member>)

  // Listings ------------------------------------------------------------------

  function Listing(m: Mapping): set<string> {
    set x | x in m.members && x.isUser && x.isActive :: Lower(x.email)
  }

  /** The same in the order of the directory's answer, each e-mail once. */
  function EmailsIn(members: seq<Member>): seq<string> {
    if members == [] then []
    else
      var before := EmailsIn(members[..|members| - 1]);
      var x := members[|members| - 1];
      if x.isUser && x.isActive && Lower(x.email) !in before then before + [Lower(x.email)] else before
  }

  lemma {:induction false} EmailsInMeaning(members: seq<Member>)
    ensures forall e :: e in EmailsIn(members) <==> exists x :: x in members && x.isUser && x.isActive && Lower(x.email) == e
  {
    hide Lower;
    if members != [] {
      var init, last := members[..|members| - 1], members[|members| - 1];
      EmailsInMeaning(init);
      assert members == init + [last];
      forall e ensures e in EmailsIn(members) <==> exists x :: x in members && x.isUser && x.isActive && Lower(x.email) == e {
        if x :| x in members && x.isUser && x.isActive && Lower(x.email) == e {
          assert x in init || x == last;
        }
        if e in EmailsIn(init) {
          var x :| x in init && x.isUser && x.isActive && Lower(x.email) == e;
          assert x in members;
        }
        assert last in members;
      }
    }
  }

  lemma ListingIsEmailsIn(m: Mapping)
    ensures forall e :: e in EmailsIn(m.members) <==> e in Listing(m)
  {
    hide Lower;
    EmailsInMeaning(m.members);
  }

  function WithGroup(g: Gid, emails: seq<string>): (r: seq<(Gid, string)>)
    ensures |r| == |emails| && forall i :: 0 <= i < |emails| ==> r[i] == (g, emails[i])
  {
    seq(|emails|, i requires 0 <= i < |emails| => (g, emails[i]))
  }

  /** The pairs of group and e-mail in the order in which a run takes them. */
  function Order(mappings: seq<Mapping>): seq<(Gid, string)> {
    if mappings == [] then []
    else
      var last := mappings[|mappings| - 1];
      Order(mappings[..|mappings| - 1]) + WithGroup(last.groupId, EmailsIn(last.members))
  }

  lemma {:induction false} OrderMeaning(mappings: seq<Mapping>)
    ensures ElementsOf(Order(mappings)) == Pairs(mappings)
  {
    hide EmailsIn, Listing;
    if mappings != [] {
      var n := |mappings| - 1;
      var last := WithGroup(mappings[n].groupId, EmailsIn(mappings[n].members));
      OrderMeaning(mappings[..n]);
      ListingIsEmailsIn(mappings[n]);
      ElementsOfSum(Order(mappings[..n]), last);
      forall p ensures p in ElementsOf(last) <==> p in PairsOf(mappings[n]) {
        if p in PairsOf(mappings[n]) {
          var i :| 0 <= i < |last| && EmailsIn(mappings[n].members)[i] == p.1;
          assert last[i] == p;
        }
        if p in last {
          var i :| 0 <= i < |last| && last[i] == p;
          assert EmailsIn(mappings[n].members)[i] in Listing(mappings[n]);
        }
      }
    }
  }

  function ElementsOf(order: seq<(Gid, string)>): set<(Gid, string)> {
    set p | p in order
  }

  lemma ElementsOfSum(a: seq<(Gid, string)>, b: seq<(Gid, string)>)
    ensures ElementsOf(a + b) == ElementsOf(a) + ElementsOf(b)
  {
  }

  /** The pairs of group and e-mail that one mapping, and a list of them, asks for. */
  function PairsOf(m: Mapping): set<(Gid, string)> {
    set e | e in Listing(m) :: (m.groupId, e)
  }

  function Pairs(mappings: seq<Mapping>): set<(Gid, string)> {
    if mappings == [] then {} else Pairs(mappings[..|mappings| - 1]) + PairsOf(mappings[|mappings| - 1])
  }

  lemma {:induction false} PairsMeaning(mappings: seq<Mapping>, g: Gid, e: string)
    ensures (g, e) in Pairs(mappings) <==> exists i :: 0 <= i < |mappings| && mappings[i].groupId == g && e in Listing(mappings[i])
  {
    hide Listing;
    if mappings != [] {
      var n := |mappings| - 1;
      PairsMeaning(mappings[..n], g, e);
      forall i | 0 <= i < n ensures mappings[..n][i] == mappings[i] {
      }
    }
  }

  // The tables ----------------------------------------------------------------

  predicate IdsUsed(users: Users, nextId: Uid) {
    forall u :: u in users ==> u < nextId
  }

  /** What the tables hold: the unique keys, and memberships of users that exist. */
  ghost predicate Keyed(db: Db) {
    && UniqueEmails(db.users) && UniqueNames(db.users) && IdsUsed(db.users, db.nextId)
    && MembersExist(db.users, db.memberships)
  }

  ghost predicate MembersExist(users: Users, memberships: Memberships) {
    forall u: Uid, g: Gid :: Role(memberships, u, g).Some? ==> u in users
  }

  /** The part of a user in a group. */
  function Role(memberships: Memberships, u: Uid, g: Gid): Option<Source> {
    if (u, g) in memberships then Some(memberships[(u, g)]) else None
  }

  /** E-mails of the server are stored in lower case. */
  predicate LowerCase(users: Users, serverId: string) {
    forall u :: u in users && users[u].serverId == serverId ==> Lower(users[u].email) == users[u].email
  }

  /** Synced members of a mapped group are users of the server of that group. */
  ghost predicate AtHome(db: Db, serverId: string, mappings: seq<Mapping>) {
    forall i, u: Uid :: 0 <= i < |mappings| && Role(db.memberships, u, mappings[i].groupId) == Some(GoogleSync)
                        ==> u in db.users && db.users[u].serverId == serverId
  }

  /** The users that the sync has put, or found, in a group. */
  function SyncedMembers(users: Users, memberships: Memberships, g: Gid): set<Uid> {
    set u | u in users && Role(memberships, u, g) == Some(GoogleSync)
  }

  // A free common name ----------------------------------------------------------

  function DeriveCommonNameFromEmail(email: string): string {
    Lower(NameCharsOnly(Split(email, '@')[0]))
  }

  function Suffixed(base: string, k: nat): string {
    if k == 0 then base else base + "_" + Decimal(k)
  }

  lemma SuffixedDiffer(base: string, j: nat, k: nat)
    requires j < k
    ensures Suffixed(base, j) != Suffixed(base, k)
  {
    hide Decimal;
    var d := Decimal(k);
    assert |Suffixed(base, k)| > |base|;
    if j > 0 && Suffixed(base, j) == Suffixed(base, k) {
      var s := base + "_";
      assert (s + Decimal(j))[|s|..] == Decimal(j) && (s + d)[|s|..] == d;
      DecimalIsInjective(j, k);
    }
  }

  ghost function Tried(base: string, n: nat): set<string> {
    set j | 0 <= j < n :: Suffixed(base, j)
  }

  lemma {:induction false} TriedSize(base: string, n: nat)
    ensures |Tried(base, n)| == n
  {
    hide Suffixed;
    if n == 0 {
      assert Tried(base, 0) == {};
    } else {
      TriedSize(base, n - 1);
      forall j | 0 <= j < n - 1 ensures Suffixed(base, j) != Suffixed(base, n - 1) {
        SuffixedDiffer(base, j, n - 1);
      }
      assert Tried(base, n) == Tried(base, n - 1) + {Suffixed(base, n - 1)};
    }
  }

  /** As many different names have been tried as there are tries, all of them taken. */
  lemma TriesAreBounded(base: string, taken: set<string>, n: nat)
    requires forall j :: 0 <= j < n ==> Suffixed(base, j) in taken
    ensures n <= |taken|
  {
    hide Suffixed;
    TriedSize(base, n);
    SubsetSize(Tried(base, n), taken);
  }

  ghost predicate IsFirstFree(base: string, taken: set<string>, name: string) {
    exists k: nat :: k <= |taken| && name == Suffixed(base, k) && name !in taken
                     && forall j :: 0 <= j < k ==> Suffixed(base, j) in taken
  }

  function FirstFreeFrom(base: string, taken: set<string>, k: nat): string
    requires forall j :: 0 <= j < k ==> Suffixed(base, j) in taken
    decreases |taken| + 1 - k
  {
    TriesAreBounded(base, taken, k);
    if Suffixed(base, k) !in taken then Suffixed(base, k) else FirstFreeFrom(base, taken, k + 1)
  }

  function FirstFreeName(base: string, taken: set<string>): string {
    FirstFreeFrom(base, taken, 0)
  }

  lemma {:induction false} FirstFreeFromMeaning(base: string, taken: set<string>, k: nat)
    requires forall j :: 0 <= j < k ==> Suffixed(base, j) in taken
    ensures IsFirstFree(base, taken, FirstFreeFrom(base, taken, k))
    decreases |taken| + 1 - k
  {
    hide Suffixed;
    TriesAreBounded(base, taken, k);
    if Suffixed(base, k) in taken {
      FirstFreeFromMeaning(base, taken, k + 1);
    }
  }

  lemma FirstFreeIsOne(base: string, taken: set<string>, name: string, other: string)
    requires IsFirstFree(base, taken, name) && IsFirstFree(base, taken, other)
    ensures name == other
  {
    hide Suffixed;
  }

  /** There is exactly one first free name. */
  lemma FirstFreeNameIff(base: string, taken: set<string>, name: string)
    ensures IsFirstFree(base, taken, name) <==> name == FirstFreeName(base, taken)
  {
    hide IsFirstFree;
    FirstFreeFromMeaning(base, taken, 0);
    if IsFirstFree(base, taken, name) {
      FirstFreeIsOne(base, taken, name, FirstFreeName(base, taken));
    }
  }

  /** The search ends, after at most as many tries as there are names, with the first
      suffix that is free. */
  method FreeName(base: string, taken: set<string>) returns (name: string)
    ensures IsFirstFree(base, taken, name) && name == FirstFreeName(base, taken)
  {
    hide Suffixed;
    name := base;
    var suffix := 1;
    BaseIsFirst(base);
    TriesAreBounded(base, taken, 0);
    while name in taken
      invariant suffix >= 1 && name == Suffixed(base, suffix - 1)
      invariant forall j :: 0 <= j < suffix - 1 ==> Suffixed(base, j) in taken
      invariant suffix - 1 <= |taken|
      decreases |taken| + 1 - suffix
    {
      TriesAreBounded(base, taken, suffix);
      name := base + "_" + Decimal(suffix);
      NextIs(base, suffix);
      suffix := suffix + 1;
    }
    FirstFreeNameIff(base, taken, name);
  }

  lemma BaseIsFirst(base: string)
    ensures Suffixed(base, 0) == base
  {
  }

  lemma NextIs(base: string, k: nat)
    requires k > 0
    ensures Suffixed(base, k) == base + "_" + Decimal(k)
  {
  }

  /** What the database fills in for a user that the sync creates. */
  function NewUser(email: string, name: string, serverId: string): VpnUser {
    VpnUser(email, serverId, name, true, NoCert)
  }

  // Adding listed members --------------------------------------------------------

  predicate IsUserOf(users: Users, u: Uid, serverId: string, email: string) {
    u in users && users[u].serverId == serverId && users[u].email == email
  }

  /** A user of the server whose e-mail is asked for in that group. */
  predicate Wanted(users: Users, serverId: string, done: set<(Gid, string)>, u: Uid, g: Gid) {
    u in users && users[u].serverId == serverId && (g, users[u].email) in done
  }

  /** Old users are as they were; new ones belong to the server, are enabled, have no
      certificate and are asked for; every e-mail that is asked for has a user. */
  ghost predicate UsersAdded(before: Users, users: Users, serverId: string, done: set<(Gid, string)>) {
    && (forall u :: u in before ==> u in users && users[u] == before[u])
    && (forall u :: u in users && u !in before ==>
          && users[u] == VpnUser(users[u].email, serverId, users[u].commonName, true, NoCert)
          && AskedFor(users[u].email, done))
    && (forall g, e :: (g, e) in done ==> HasUser(users, serverId, e))
  }

  ghost predicate AskedFor(email: string, done: set<(Gid, string)>) {
    exists g :: (g, email) in done
  }

  ghost predicate HasUser(users: Users, serverId: string, email: string) {
    exists u :: IsUserOf(users, u, serverId, email)
  }

  /** The wanted memberships are there and marked, all others are as they were. */
  ghost predicate RolesAdded(before: Memberships, users: Users, memberships: Memberships, serverId: string,
                             done: set<(Gid, string)>) {
    forall u: Uid, g: Gid ::
      Role(memberships, u, g) == if Wanted(users, serverId, done, u, g) then Some(GoogleSync) else Role(before, u, g)
  }

  /** The common names of the server when a user was created: those of earlier users. */
  function EarlierNames(users: Users, u: Uid, serverId: string): set<string> {
    set v | v in users && v < u && users[v].serverId == serverId :: users[v].commonName
  }

  /** Each new user has the first name that was free when it was created. */
  ghost predicate NamesGiven(before: Db, users: Users, serverId: string) {
    forall u :: u in users && u !in before.users ==>
      && before.nextId <= u
      && IsFirstFree(DeriveCommonNameFromEmail(users[u].email), EarlierNames(users, u, serverId), users[u].commonName)
  }

  /** How the tables have changed once the pairs in `done` are dealt with, in whatever
      order. */
  ghost predicate Added(before: Db, db: Db, serverId: string, done: set<(Gid, string)>) {
    && Keyed(db) && before.nextId <= db.nextId
    && UsersAdded(before.users, db.users, serverId, done)
    && RolesAdded(before.memberships, db.users, db.memberships, serverId, done)
    && NamesGiven(before, db.users, serverId)
  }

  lemma NothingAdded(db: Db, serverId: string)
    requires Keyed(db)
    ensures Added(db, db, serverId, {})
  {
  }

  /** One pair more, for a user that exists. */
  lemma OneMoreWanted(users: Users, serverId: string, done: set<(Gid, string)>, g: Gid, email: string, u: Uid, v: Uid, h: Gid)
    requires UniqueEmails(users) && IsUserOf(users, u, serverId, email)
    ensures Wanted(users, serverId, done + {(g, email)}, v, h)
            <==> Wanted(users, serverId, done, v, h) || (v == u && h == g)
  {
  }

  lemma UsersStayAdded(before: Users, users: Users, serverId: string, done: set<(Gid, string)>, g: Gid, email: string)
    requires UsersAdded(before, users, serverId, done) && HasUser(users, serverId, email)
    ensures UsersAdded(before, users, serverId, done + {(g, email)})
  {
    var more := done + {(g, email)};
    forall u | u in users && u !in before ensures AskedFor(users[u].email, more) {
      var h :| (h, users[u].email) in done;
      assert (h, users[u].email) in more;
    }
  }

  /** Setting the membership of a user that exists; nothing changes when it is a
      synced member already. */
  lemma MemberAdded(before: Db, db: Db, serverId: string, done: set<(Gid, string)>, g: Gid, email: string, u: Uid)
    requires Added(before, db, serverId, done) && IsUserOf(db.users, u, serverId, email)
    ensures Added(before, db.(memberships := db.memberships[(u, g) := GoogleSync]), serverId, done + {(g, email)})
    ensures u in SyncedMembers(db.users, db.memberships, g) ==> db.memberships[(u, g) := GoogleSync] == db.memberships
  {
    hide Wanted, UniqueEmails, UniqueNames, UsersAdded, NamesGiven;
    UsersStayAdded(before.users, db.users, serverId, done, g, email);
    forall v: Uid, h: Gid
      ensures Wanted(db.users, serverId, done + {(g, email)}, v, h)
              <==> Wanted(db.users, serverId, done, v, h) || (v == u && h == g)
    {
      OneMoreWanted(db.users, serverId, done, g, email, u, v, h);
    }
    var after := db.(memberships := db.memberships[(u, g) := GoogleSync]);
    forall v: Uid, h: Gid | Role(after.memberships, v, h).Some? ensures v in after.users {
      assert v == u || Role(db.memberships, v, h).Some?;
    }
    assert UsersAdded(before.users, after.users, serverId, done + {(g, email)});
  }

  /** The tables with one more user and its membership. */
  function WithUser(db: Db, serverId: string, g: Gid, email: string, name: string): Db {
    Db(db.users[db.nextId := NewUser(email, name, serverId)], db.memberships[(db.nextId, g) := GoogleSync], db.flagged,
       db.nextId + 1)
  }

  /** Creating a user for an e-mail that has none, under the first free name. */
  lemma UserAdded(before: Db, db: Db, serverId: string, done: set<(Gid, string)>, g: Gid, email: string, name: string)
    requires Added(before, db, serverId, done) && Keyed(before)
    requires !HasUser(db.users, serverId, email)
    requires IsFirstFree(DeriveCommonNameFromEmail(email), NamesOn(db.users, serverId), name)
    ensures db.nextId !in db.users
    ensures Added(before, WithUser(db, serverId, g, email, name), serverId, done + {(g, email)})
    ensures IsUserOf(WithUser(db, serverId, g, email, name).users, db.nextId, serverId, email)
  {
    hide UniqueEmails, UniqueNames, UsersAdded, RolesAdded, HasUser, NamesOn, NamesGiven, DeriveCommonNameFromEmail, IsFirstFree,
         MembersExist;
    FreeIsFree(DeriveCommonNameFromEmail(email), NamesOn(db.users, serverId), name);
    NewUserKeys(db.users, db.nextId, NewUser(email, name, serverId));
    NewUserUsers(before.users, db.users, db.nextId, NewUser(email, name, serverId), serverId, done, g);
    NewUserRoles(before, db, serverId, done, g, email, name);
    NewMemberExists(db.users, db.memberships, db.nextId, NewUser(email, name, serverId), g);
    NewUserNames(before, db, serverId, email, name);
  }

  // A run as a function ------------------------------------------------------------

  /** The user of the server with that e-mail. */
  ghost function UserOf(users: Users, serverId: string, email: string): (r: Option<Uid>)
    ensures r.None? <==> !HasUser(users, serverId, email)
    ensures r.Some? ==> IsUserOf(users, r.value, serverId, email)
  {
    if HasUser(users, serverId, email) then
      var u :| IsUserOf(users, u, serverId, email);
      Some(u)
    else None
  }

  /** What dealing with one pair does: find the user or create it under the first free
      name, then mark the membership. */
  ghost function Dealt(db: Db, serverId: string, p: (Gid, string)): Db {
    match UserOf(db.users, serverId, p.1)
    case Some(u) => db.(memberships := db.memberships[(u, p.0) := GoogleSync])
    case None =>
      WithUser(db, serverId, p.0, p.1, FirstFreeName(DeriveCommonNameFromEmail(p.1), NamesOn(db.users, serverId)))
  }

  ghost function DealtAll(db: Db, serverId: string, order: seq<(Gid, string)>): Db {
    if order == [] then db else Dealt(DealtAll(db, serverId, order[..|order| - 1]), serverId, order[|order| - 1])
  }

  /** The tables after a whole run, the mappings and their listings taken in turn. */
  ghost function Synced(db: Db, serverId: string, mappings: seq<Mapping>): Db {
    DealtAll(db, serverId, Order(mappings)).(flagged := db.flagged + RemovedFrom(db, Pairs(mappings), mappings))
  }

  lemma UserOfIs(users: Users, serverId: string, email: string, u: Uid)
    requires UniqueEmails(users) && IsUserOf(users, u, serverId, email)
    ensures UserOf(users, serverId, email) == Some(u)
  {
  }

  lemma DealtIsAdded(before: Db, db: Db, serverId: string, done: set<(Gid, string)>, p: (Gid, string))
    requires Keyed(before) && Added(before, db, serverId, done)
    ensures Added(before, Dealt(db, serverId, p), serverId, done + {p})
  {
    hide Added, FirstFreeName, DeriveCommonNameFromEmail, IsFirstFree;
    var (g, email) := p;
    match UserOf(db.users, serverId, email) {
      case Some(u) => MemberAdded(before, db, serverId, done, g, email, u);
      case None =>
        var base, taken := DeriveCommonNameFromEmail(email), NamesOn(db.users, serverId);
        FirstFreeNameIff(base, taken, FirstFreeName(base, taken));
        UserAdded(before, db, serverId, done, g, email, FirstFreeName(base, taken));
    }
  }

  lemma {:induction false} DealtAllIsAdded(before: Db, serverId: string, order: seq<(Gid, string)>)
    requires Keyed(before)
    ensures Added(before, DealtAll(before, serverId, order), serverId, ElementsOf(order))
  {
    hide Added, Dealt;
    if order == [] {
      NothingAdded(before, serverId);
      assert ElementsOf(order) == {};
    } else {
      var n := |order| - 1;
      DealtAllIsAdded(before, serverId, order[..n]);
      DealtIsAdded(before, DealtAll(before, serverId, order[..n]), serverId, ElementsOf(order[..n]), order[n]);
      ElementsOfSum(order[..n], [order[n]]);
      assert order == order[..n] + [order[n]] && ElementsOf([order[n]]) == {order[n]};
    }
  }

  lemma {:induction false} DealtAllOfSum(db: Db, serverId: string, a: seq<(Gid, string)>, b: seq<(Gid, string)>)
    ensures DealtAll(db, serverId, a + b) == DealtAll(DealtAll(db, serverId, a), serverId, b)
  {
    hide Dealt;
    if b == [] {
      assert a + b == a;
    } else {
      DealtAllOfSum(db, serverId, a, b[..|b| - 1]);
      assert (a + b)[..|a + b| - 1] == a + b[..|b| - 1];
    }
  }

  lemma {:induction false} DealtAllFlags(db: Db, serverId: string, order: seq<(Gid, string)>, flags: set<Uid>)
    ensures DealtAll(db.(flagged := flags), serverId, order) == DealtAll(db, serverId, order).(flagged := flags)
    ensures DealtAll(db, serverId, order).flagged == db.flagged
  {
    if order != [] {
      DealtAllFlags(db, serverId, order[..|order| - 1], flags);
    }
  }

  /** A whole run, as a relation that does not see the order. */
  lemma SyncedIsSyncedWith(before: Db, serverId: string, mappings: seq<Mapping>)
    requires Keyed(before)
    ensures SyncedWith(before, Synced(before, serverId, mappings), serverId, mappings)
  {
    hide Added, DealtAll, RemovedFrom, Pairs, Order, ElementsOf;
    DealtAllIsAdded(before, serverId, Order(mappings));
    OrderMeaning(mappings);
    FlagsAreApart(before, DealtAll(before, serverId, Order(mappings)), Synced(before, serverId, mappings), serverId,
                  Pairs(mappings));
  }

  lemma SameEarlierNames(a: Users, b: Users, u: Uid, serverId: string)
    requires forall v :: v < u ==> (v in a <==> v in b) && (v in a ==> a[v] == b[v])
    ensures EarlierNames(a, u, serverId) == EarlierNames(b, u, serverId)
  {
    forall name ensures name in EarlierNames(a, u, serverId) <==> name in EarlierNames(b, u, serverId) {
      if v :| v in a && v < u && a[v].serverId == serverId && a[v].commonName == name {
        assert v in b && b[v].commonName == name;
      }
      if v :| v in b && v < u && b[v].serverId == serverId && b[v].commonName == name {
        assert v in a && a[v].commonName == name;
      }
    }
  }

  lemma AllAreEarlier(users: Users, u: Uid, serverId: string)
    requires IdsUsed(users, u)
    ensures EarlierNames(users, u, serverId) == NamesOn(users, serverId)
  {
    forall name ensures name in EarlierNames(users, u, serverId) <==> name in NamesOn(users, serverId) {
      if v :| v in users && users[v].serverId == serverId && users[v].commonName == name {
        assert v < u;
      }
    }
  }

  lemma NewUserNames(before: Db, db: Db, serverId: string, email: string, name: string)
    requires NamesGiven(before, db.users, serverId) && IdsUsed(db.users, db.nextId) && before.nextId <= db.nextId
    requires IsFirstFree(DeriveCommonNameFromEmail(email), NamesOn(db.users, serverId), name)
    ensures NamesGiven(before, db.users[db.nextId := NewUser(email, name, serverId)], serverId)
  {
    hide DeriveCommonNameFromEmail, IsFirstFree, EarlierNames, NamesOn;
    var users := db.users[db.nextId := NewUser(email, name, serverId)];
    SameEarlierNames(users, db.users, db.nextId, serverId);
    AllAreEarlier(db.users, db.nextId, serverId);
    forall u | u in db.users ensures EarlierNames(users, u, serverId) == EarlierNames(db.users, u, serverId) {
      SameEarlierNames(users, db.users, u, serverId);
    }
  }

  lemma FreeIsFree(base: string, taken: set<string>, name: string)
    requires IsFirstFree(base, taken, name)
    ensures name !in taken
  {
  }

  lemma NewMemberExists(users: Users, memberships: Memberships, id: Uid, user: VpnUser, g: Gid)
    requires MembersExist(users, memberships)
    ensures MembersExist(users[id := user], memberships[(id, g) := GoogleSync])
  {
    var more := memberships[(id, g) := GoogleSync];
    forall v: Uid, h: Gid | Role(more, v, h).Some? ensures v in users[id := user] {
      assert v == id || Role(memberships, v, h).Some?;
    }
  }

  lemma NewUserKeys(users: Users, id: Uid, user: VpnUser)
    requires UniqueEmails(users) && UniqueNames(users) && IdsUsed(users, id)
    requires !HasUser(users, user.serverId, user.email) && user.commonName !in NamesOn(users, user.serverId)
    ensures UniqueEmails(users[id := user]) && UniqueNames(users[id := user])
  {
    forall v | v in users && users[v].serverId == user.serverId
      ensures users[v].email != user.email && users[v].commonName != user.commonName
    {
      assert !IsUserOf(users, v, user.serverId, user.email);
      assert users[v].commonName in NamesOn(users, user.serverId);
    }
  }

  lemma NewUserUsers(before: Users, users: Users, id: Uid, user: VpnUser, serverId: string, done: set<(Gid, string)>, g: Gid)
    requires UsersAdded(before, users, serverId, done) && id !in users
    requires user.serverId == serverId && user.isEnabled && user.certStatus == NoCert
    ensures UsersAdded(before, users[id := user], serverId, done + {(g, user.email)})
  {
    var all, more := users[id := user], done + {(g, user.email)};
    forall v | v in all && v !in before ensures AskedFor(all[v].email, more) {
      if v == id {
        assert (g, all[v].email) in more;
      } else {
        var h :| (h, users[v].email) in done;
        assert (h, all[v].email) in more;
      }
    }
    forall h, e | (h, e) in more ensures HasUser(all, serverId, e) {
      if (h, e) in done {
        var v :| IsUserOf(users, v, serverId, e);
        assert IsUserOf(all, v, serverId, e);
      } else {
        assert IsUserOf(all, id, serverId, e);
      }
    }
  }

  lemma NewUserRoles(before: Db, db: Db, serverId: string, done: set<(Gid, string)>, g: Gid, email: string, name: string)
    requires Added(before, db, serverId, done) && Keyed(before) && !HasUser(db.users, serverId, email)
    ensures RolesAdded(before.memberships, db.users[db.nextId := NewUser(email, name, serverId)],
                       db.memberships[(db.nextId, g) := GoogleSync], serverId, done + {(g, email)})
  {
    hide UniqueEmails, UniqueNames;
    var id := db.nextId;
    var users, more := db.users[id := NewUser(email, name, serverId)], done + {(g, email)};
    forall h ensures (h, email) !in done {
    }
    forall v: Uid, h: Gid ensures Wanted(users, serverId, more, v, h) <==> Wanted(db.users, serverId, done, v, h) || (v == id && h == g) {
      if v in db.users {
        assert !IsUserOf(db.users, v, serverId, email);
      }
    }
    forall h ensures Role(before.memberships, id, h) == None {
    }
  }

  // Flagging those no longer listed -------------------------------------------------

  /** The synced members of a group whom no mapping of that group lists. */
  function Removed(users: Users, memberships: Memberships, listed: set<(Gid, string)>, g: Gid): set<Uid> {
    set u | u in SyncedMembers(users, memberships, g) && (g, Lower(users[u].email)) !in listed
  }

  function RemovedFrom(db: Db, listed: set<(Gid, string)>, mappings: seq<Mapping>): set<Uid> {
    if mappings == [] then {}
    else RemovedFrom(db, listed, mappings[..|mappings| - 1])
         + Removed(db.users, db.memberships, listed, mappings[|mappings| - 1].groupId)
  }

  /** What the counter of flagged users adds up to: mapping by mapping. */
  function CountRemoved(db: Db, listed: set<(Gid, string)>, mappings: seq<Mapping>): nat {
    if mappings == [] then 0
    else CountRemoved(db, listed, mappings[..|mappings| - 1])
         + |Removed(db.users, db.memberships, listed, mappings[|mappings| - 1].groupId)|
  }

  /** What the sync needs of the tables; it keeps it. */
  ghost predicate Fit(db: Db, serverId: string, mappings: seq<Mapping>) {
    Keyed(db) && LowerCase(db.users, serverId) && AtHome(db, serverId, mappings)
  }

  predicate AllLower(done: set<(Gid, string)>) {
    forall p :: p in done ==> Lower(p.1) == p.1
  }

  lemma LowerTwice(s: string)
    ensures Lower(Lower(s)) == Lower(s)
  {
    assert forall i :: 0 <= i < |s| ==> LowerChar(LowerChar(s[i])) == LowerChar(s[i]);
  }

  lemma {:induction false} PairsAreLower(mappings: seq<Mapping>)
    ensures AllLower(Pairs(mappings))
  {
    if mappings != [] {
      var n := |mappings| - 1;
      PairsAreLower(mappings[..n]);
      forall e | e in Listing(mappings[n]) ensures Lower(e) == e {
        var x :| x in mappings[n].members && Lower(x.email) == e;
        LowerTwice(x.email);
      }
    }
  }

  lemma FitAfter(before: Db, db: Db, serverId: string, done: set<(Gid, string)>, mappings: seq<Mapping>)
    requires Fit(before, serverId, mappings) && Added(before, db, serverId, done) && AllLower(done)
    ensures Fit(db, serverId, mappings)
  {
    hide UniqueEmails, UniqueNames, HasUser, Lower;
    forall u | u in db.users && db.users[u].serverId == serverId ensures Lower(db.users[u].email) == db.users[u].email {
      if u !in before.users {
        assert AskedFor(db.users[u].email, done);
        var g :| (g, db.users[u].email) in done;
        assert (g, db.users[u].email).1 == db.users[u].email;
      }
    }
  }

  /** Adding what is listed changes nobody's being listed no longer. */
  lemma RemovedIsStable(before: Db, db: Db, serverId: string, done: set<(Gid, string)>, listed: set<(Gid, string)>, g: Gid)
    requires Keyed(before) && LowerCase(db.users, serverId) && Added(before, db, serverId, done) && done <= listed
    ensures Removed(db.users, db.memberships, listed, g) == Removed(before.users, before.memberships, listed, g)
  {
    hide UniqueEmails, UniqueNames, HasUser, Lower;
    forall u: Uid
      ensures u in Removed(db.users, db.memberships, listed, g) <==> u in Removed(before.users, before.memberships, listed, g)
    {
      assert Role(db.memberships, u, g)
             == if Wanted(db.users, serverId, done, u, g) then Some(GoogleSync) else Role(before.memberships, u, g);
    }
  }

  /** Different members of a mapped group have different e-mails. */
  lemma MembersApart(db: Db, serverId: string, mappings: seq<Mapping>, k: nat, u: Uid, v: Uid)
    requires Fit(db, serverId, mappings) && k < |mappings|
    requires u in SyncedMembers(db.users, db.memberships, mappings[k].groupId)
    requires v in SyncedMembers(db.users, db.memberships, mappings[k].groupId)
    requires Lower(db.users[u].email) == Lower(db.users[v].email)
    ensures u == v
  {
    assert Role(db.memberships, u, mappings[k].groupId) == Role(db.memberships, v, mappings[k].groupId) == Some(GoogleSync);
  }

  // The operations --------------------------------------------------------------------

  /** The members of one group by e-mail, as they were read. */
  ghost predicate IsSnapshot(users: Users, memberships: Memberships, serverId: string, g: Gid, current: map<string, Uid>) {
    forall e :: e in current ==>
      IsUserOf(users, current[e], serverId, e) && current[e] in SyncedMembers(users, memberships, g)
  }

  ghost predicate Apart(users: Users, members: set<Uid>) {
    forall u, v :: u in members && v in members && u in users && v in users && Lower(users[u].email) == Lower(users[v].email)
                   ==> u == v
  }

  function CurrentEmails(users: Users, members: set<Uid>): map<string, Uid>
    requires (forall u :: u in members ==> u in users) && Apart(users, members)
  {
    map u | u in members :: Lower(users[u].email) := u
  }

  /** Those of a snapshot whom no mapping of the group lists. */
  function Gone(current: map<string, Uid>, listed: set<(Gid, string)>, g: Gid): set<string> {
    set e | e in current && (g, e) !in listed
  }

  function UsersOf(current: map<string, Uid>, emails: set<string>): set<Uid> {
    set e | e in emails && e in current :: current[e]
  }

  /** Users stay as they are, synced memberships stay synced. */
  ghost predicate Grows(users: Users, memberships: Memberships, users2: Users, memberships2: Memberships) {
    && (forall u :: u in users ==> u in users2 && users2[u] == users[u])
    && (forall u: Uid, g: Gid :: Role(memberships, u, g) == Some(GoogleSync) ==> Role(memberships2, u, g) == Some(GoogleSync))
  }

  class Directory {
    var users: Users
    var memberships: Memberships
    var flagged: set<Uid>
    var nextId: Uid

    constructor ()
      ensures Contents() == Db(map[], map[], {}, 0)
    {
      users, memberships, flagged, nextId := map[], map[], {}, 0;
    }

    function Contents(): Db
      reads this
    {
      Db(users, memberships, flagged, nextId)
    }

    /** One listed e-mail that is not among the current members: find or create the
        user, then set the membership. */
    method AddMember(serverId: string, g: Gid, email: string) returns (created: bool)
      requires Keyed(Contents())
      modifies this`users, this`memberships, this`nextId
      ensures Contents() == Dealt(old(Contents()), serverId, (g, email))
      ensures |users| == |old(users)| + if created then 1 else 0
    {
      hide UniqueNames, MembersExist, NamesOn, DeriveCommonNameFromEmail, FirstFreeName, IsFirstFree;
      if u :| u in users && users[u].email == email && users[u].serverId == serverId {
        UserOfIs(users, serverId, email, u);
        memberships := memberships[(u, g) := GoogleSync];
        return false;
      }
      var base := DeriveCommonNameFromEmail(email);
      var name := FreeName(base, NamesOn(users, serverId));
      users := users[nextId := NewUser(email, name, serverId)];
      memberships := memberships[(nextId, g) := GoogleSync];
      nextId := nextId + 1;
      return true;
    }

    /** The listed e-mails of one mapping, in the order of the listing. */
    method AddListed(serverId: string, g: Gid, listing: seq<string>, current: map<string, Uid>) returns (added: nat)
      requires Keyed(Contents()) && IsSnapshot(users, memberships, serverId, g, current)
      modifies this`users, this`memberships, this`nextId
      ensures Contents() == DealtAll(old(Contents()), serverId, WithGroup(g, listing))
      ensures |users| == |old(users)| + added
    {
      hide Keyed, IsSnapshot, Dealt;
      added := 0;
      for i := 0 to |listing|
        invariant Keyed(Contents()) && IsSnapshot(users, memberships, serverId, g, current)
        invariant Contents() == DealtAll(old(Contents()), serverId, WithGroup(g, listing[..i]))
        invariant |users| == |old(users)| + added
      {
        ghost var was := Contents();
        assert WithGroup(g, listing[..i + 1])[..i] == WithGroup(g, listing[..i]);
        DealtKeeps(was, serverId, g, listing[i], current);
        if listing[i] !in current {
          var created := AddMember(serverId, g, listing[i]);
          added := added + if created then 1 else 0;
        }
      }
      assert listing[..|listing|] == listing;
    }

    /** The current members whom neither this mapping nor another one of its group lists. */
    method FlagRemoved(mappings: seq<Mapping>, k: nat, current: map<string, Uid>) returns (count: nat)
      requires k < |mappings| && IdsDiffer(mappings)
      modifies this`flagged
      ensures flagged == old(flagged) + UsersOf(current, Gone(current, Pairs(mappings), mappings[k].groupId))
      ensures count == |Gone(current, Pairs(mappings), mappings[k].groupId)|
    {
      hide Listing, Pairs;
      count := 0;
      var g := mappings[k].groupId;
      var todo := current.Keys;
      ghost var gone: set<string> := {};
      while todo != {}
        invariant todo <= current.Keys
        invariant gone == Gone(current, Pairs(mappings), g) - todo
        invariant flagged == old(flagged) + UsersOf(current, gone)
        invariant count == |gone|
        decreases |todo|
      {
        var email :| email in todo;
        todo := todo - {email};
        var still := StillListed(mappings, k, email);
        if email !in Listing(mappings[k]) && !still {
          flagged := flagged + {current[email]};
          count := count + 1;
          assert Gone(current, Pairs(mappings), g) - todo == gone + {email};
          gone := gone + {email};
        } else {
          assert Gone(current, Pairs(mappings), g) - todo == gone;
        }
      }
    }

    /** One mapping: read the members, add the listed, flag the removed. */
    method ProcessMapping(serverId: string, mappings: seq<Mapping>, k: nat, ghost before: Db)
      returns (added: nat, flaggedNow: nat)
      requires k < |mappings| && IdsDiffer(mappings) && Fit(before, serverId, mappings)
      requires Added(before, Contents(), serverId, Pairs(mappings[..k]))
      modifies this
      ensures Contents() == DealtAll(old(Contents()), serverId, WithGroup(mappings[k].groupId, EmailsIn(mappings[k].members)))
                            .(flagged := flagged)
      ensures flagged == old(flagged) + Removed(before.users, before.memberships, Pairs(mappings), mappings[k].groupId)
      ensures |users| == |old(users)| + added
      ensures flaggedNow == |Removed(before.users, before.memberships, Pairs(mappings), mappings[k].groupId)|
    {
      hide Added, Listing, EmailsIn, Removed, Fit, Keyed, Pairs, SyncedMembers, Gone, UsersOf, CurrentEmails, IsSnapshot, Apart,
           IdsDiffer, DealtAll, WithGroup;
      var g := mappings[k].groupId;
      var members := SyncedMembers(users, memberships, g);
      StartOfMapping(before, Contents(), serverId, mappings, k);
      var current := CurrentEmails(users, members);
      SnapshotIs(Contents(), serverId, mappings, k);
      added := AddListed(serverId, g, EmailsIn(mappings[k].members), current);
      flaggedNow := FlagRemoved(mappings, k, current);
    }

    method RunGoogleSync(serverId: string, mappings: seq<Mapping>) returns (usersAdded: nat, usersFlagged: nat)
      requires IdsDiffer(mappings) && Fit(Contents(), serverId, mappings)
      modifies this
      ensures Contents() == Synced(old(Contents()), serverId, mappings)
      ensures SyncedWith(old(Contents()), Contents(), serverId, mappings)
      ensures |users| == |old(users)| + usersAdded
      ensures usersFlagged == CountRemoved(old(Contents()), Pairs(mappings), mappings)
      ensures usersFlagged == |RemovedFrom(old(Contents()), Pairs(mappings), mappings)|
              <==> forall u :: !RemovedTwice(old(Contents()), mappings, u)
    {
      hide Added, Keyed, LowerCase, AtHome, Removed, Pairs, DealtAll, EmailsIn, SyncedWith;
      ghost var before := Contents();
      usersAdded, usersFlagged := 0, 0;
      NothingDealt(before, serverId);
      for k := 0 to |mappings|
        invariant Contents() == DealtAll(before, serverId, Order(mappings[..k])).(flagged := flagged)
        invariant flagged == before.flagged + RemovedFrom(before, Pairs(mappings), mappings[..k])
        invariant |users| == |before.users| + usersAdded
        invariant usersFlagged == CountRemoved(before, Pairs(mappings), mappings[..k])
      {
        assert mappings[..k + 1][..k] == mappings[..k];
        NextMapping(before, Contents(), serverId, mappings, k);
        var added, flaggedNow := ProcessMapping(serverId, mappings, k, before);
        usersAdded, usersFlagged := usersAdded + added, usersFlagged + flaggedNow;
      }
      assert mappings[..|mappings|] == mappings;
      SyncedIsSyncedWith(before, serverId, mappings);
      FlagCounterIsExactIff(before, mappings);
    }
  }

  lemma NothingDealt(db: Db, serverId: string)
    ensures DealtAll(db, serverId, []) == db
  {
  }

  /** Where a run stands before a mapping, and how that mapping goes on from there. */
  lemma NextMapping(before: Db, db: Db, serverId: string, mappings: seq<Mapping>, k: nat)
    requires k < |mappings| && Keyed(before)
    requires db == DealtAll(before, serverId, Order(mappings[..k])).(flagged := db.flagged)
    ensures Added(before, db, serverId, Pairs(mappings[..k]))
    ensures var next := WithGroup(mappings[k].groupId, EmailsIn(mappings[k].members));
            forall flags :: DealtAll(db, serverId, next).(flagged := flags)
                            == DealtAll(before, serverId, Order(mappings[..k + 1])).(flagged := flags)
  {
    hide Added, Keyed, DealtAll, EmailsIn, Pairs, WithGroup;
    var done := Order(mappings[..k]);
    var next := WithGroup(mappings[k].groupId, EmailsIn(mappings[k].members));
    DealtAllIsAdded(before, serverId, done);
    OrderMeaning(mappings[..k]);
    FlagsAreApart(before, DealtAll(before, serverId, done), db, serverId, Pairs(mappings[..k]));
    assert mappings[..k + 1][..k] == mappings[..k];
    assert Order(mappings[..k + 1]) == done + next;
    DealtAllOfSum(before, serverId, done, next);
    DealtAllFlags(DealtAll(before, serverId, done), serverId, next, db.flagged);
  }

  /** Dealing with one more e-mail keeps the tables and the snapshot in order; an e-mail
      of the snapshot needs nothing. */
  lemma DealtKeeps(db: Db, serverId: string, g: Gid, email: string, current: map<string, Uid>)
    requires Keyed(db) && IsSnapshot(db.users, db.memberships, serverId, g, current)
    ensures var next := Dealt(db, serverId, (g, email));
            && Keyed(next) && IsSnapshot(next.users, next.memberships, serverId, g, current)
            && (email in current ==> next == db)
  {
    hide IsSnapshot, FirstFreeName, DeriveCommonNameFromEmail, UniqueNames;
    NothingAdded(db, serverId);
    DealtIsAdded(db, db, serverId, {}, (g, email));
    var next := Dealt(db, serverId, (g, email));
    SnapshotStays(db.users, db.memberships, next.users, next.memberships, serverId, g, current);
    if email in current {
      SnapshotEntry(db, serverId, g, email, current);
    }
  }

  lemma SnapshotEntry(db: Db, serverId: string, g: Gid, email: string, current: map<string, Uid>)
    requires UniqueEmails(db.users) && IsSnapshot(db.users, db.memberships, serverId, g, current) && email in current
    ensures Dealt(db, serverId, (g, email)) == db
  {
    UserOfIs(db.users, serverId, email, current[email]);
    assert db.memberships[(current[email], g) := GoogleSync] == db.memberships;
  }

  lemma FlagsAreApart(before: Db, db: Db, other: Db, serverId: string, done: set<(Gid, string)>)
    requires Added(before, db, serverId, done) && other == db.(flagged := other.flagged)
    ensures Added(before, other, serverId, done)
  {
    hide UsersAdded, RolesAdded, UniqueEmails, UniqueNames, MembersExist;
  }

  predicate IdsDiffer(mappings: seq<Mapping>) {
    forall i, j :: 0 <= i < j < |mappings| ==> mappings[i].id != mappings[j].id
  }

  /** Is an e-mail listed by another mapping of the same group? */
  method StillListed(mappings: seq<Mapping>, k: nat, email: string) returns (still: bool)
    requires k < |mappings| && IdsDiffer(mappings)
    ensures email in Listing(mappings[k]) || still <==> (mappings[k].groupId, email) in Pairs(mappings)
  {
    hide Listing, Pairs;
    still := false;
    PairsMeaning(mappings, mappings[k].groupId, email);
    for i := 0 to |mappings|
      invariant still <==> exists j :: 0 <= j < i && j != k && mappings[j].groupId == mappings[k].groupId
                                       && email in Listing(mappings[j])
    {
      if mappings[i].id != mappings[k].id && mappings[i].groupId == mappings[k].groupId && email in Listing(mappings[i]) {
        still := true;
        assert i != k;
        return;
      }
    }
  }

  /** The tables after a whole run. */
  ghost predicate SyncedWith(before: Db, db: Db, serverId: string, mappings: seq<Mapping>) {
    && Added(before, db, serverId, Pairs(mappings))
    && db.flagged == before.flagged + RemovedFrom(before, Pairs(mappings), mappings)
  }

  /** An active person that some mapping lists, under an e-mail in any case. */
  ghost predicate Lists(mappings: seq<Mapping>, i: int, x: Member, email: string) {
    0 <= i < |mappings| && x in mappings[i].members && x.isUser && x.isActive && Lower(x.email) == email
  }

  lemma {:induction false} AskedIsListed(mappings: seq<Mapping>, email: string)
    ensures AskedFor(email, Pairs(mappings)) <==> exists i, x :: Lists(mappings, i, x, email)
  {
    hide Lower, Pairs;
    if g :| (g, email) in Pairs(mappings) {
      PairsMeaning(mappings, g, email);
      var i :| 0 <= i < |mappings| && mappings[i].groupId == g && email in Listing(mappings[i]);
      var x :| x in mappings[i].members && x.isUser && x.isActive && Lower(x.email) == email;
      assert Lists(mappings, i, x, email);
    }
    if i, x :| Lists(mappings, i, x, email) {
      assert email in Listing(mappings[i]);
      PairsMeaning(mappings, mappings[i].groupId, email);
    }
  }

  /** The users behind a run, row by row: old ones are untouched; a new one is on this
      server, enabled and without a certificate, and there is one exactly for each
      e-mail that an active person is listed under and that had no user here. */
  lemma {:induction false} UsersAfterRun(before: Db, db: Db, serverId: string, mappings: seq<Mapping>, e: string)
    requires Keyed(before) && SyncedWith(before, db, serverId, mappings)
    ensures forall u :: u in before.users ==> u in db.users && db.users[u] == before.users[u]
    ensures forall u :: u in db.users && u !in before.users ==>
              && db.users[u].serverId == serverId && db.users[u].isEnabled && db.users[u].certStatus == NoCert
    ensures (exists u :: u in db.users && u !in before.users && db.users[u].email == e)
            <==> (exists i, x :: Lists(mappings, i, x, e))
                 && !exists u :: u in before.users && before.users[u].serverId == serverId && before.users[u].email == e
  {
    hide Pairs, RolesAdded, NamesGiven, RemovedFrom, UniqueNames, Lists, MembersExist, IdsUsed;
    AskedIsListed(mappings, e);
    NewUserIff(before.users, db.users, serverId, Pairs(mappings), e);
  }

  lemma NewUserIff(before: Users, users: Users, serverId: string, done: set<(Gid, string)>, e: string)
    requires UniqueEmails(users) && UsersAdded(before, users, serverId, done)
    ensures (exists u :: u in users && u !in before && users[u].email == e)
            <==> AskedFor(e, done) && !exists u :: u in before && before[u].serverId == serverId && before[u].email == e
  {
    if AskedFor(e, done) && !exists u :: u in before && before[u].serverId == serverId && before[u].email == e {
      var g :| (g, e) in done;
      var u :| IsUserOf(users, u, serverId, e);
      assert u !in before;
    }
  }

  lemma {:induction false} PairsOfPrefix(mappings: seq<Mapping>, k: nat)
    requires k <= |mappings|
    ensures Pairs(mappings[..k]) <= Pairs(mappings)
    decreases |mappings|
  {
    hide PairsOf;
    if k < |mappings| {
      PairsOfPrefix(mappings[..|mappings| - 1], k);
      assert mappings[..|mappings| - 1][..k] == mappings[..k];
    } else {
      assert mappings[..k] == mappings;
    }
  }

  lemma StartOfMapping(before: Db, db: Db, serverId: string, mappings: seq<Mapping>, k: nat)
    requires k < |mappings| && Fit(before, serverId, mappings) && Added(before, db, serverId, Pairs(mappings[..k]))
    ensures Keyed(before) && Keyed(db) && Fit(db, serverId, mappings)
    ensures var g := mappings[k].groupId;
            && (forall u :: u in SyncedMembers(db.users, db.memberships, g) ==> u in db.users)
            && Apart(db.users, SyncedMembers(db.users, db.memberships, g))
            && Removed(db.users, db.memberships, Pairs(mappings), g)
               == Removed(before.users, before.memberships, Pairs(mappings), g)
  {
    hide Added, AllLower, UniqueEmails, UniqueNames, AtHome, LowerCase, Pairs, Removed;
    PairsAreLower(mappings[..k]);
    FitAfter(before, db, serverId, Pairs(mappings[..k]), mappings);
    PairsOfPrefix(mappings, k);
    RemovedIsStable(before, db, serverId, Pairs(mappings[..k]), Pairs(mappings), mappings[k].groupId);
    var members := SyncedMembers(db.users, db.memberships, mappings[k].groupId);
    forall u, v | u in members && v in members && Lower(db.users[u].email) == Lower(db.users[v].email) ensures u == v {
      MembersApart(db, serverId, mappings, k, u, v);
    }
  }

  /** The snapshot of a mapping, and whom of it no mapping lists. */
  lemma SnapshotIs(db: Db, serverId: string, mappings: seq<Mapping>, k: nat)
    requires k < |mappings| && Fit(db, serverId, mappings)
    requires forall u :: u in SyncedMembers(db.users, db.memberships, mappings[k].groupId) ==> u in db.users
    requires Apart(db.users, SyncedMembers(db.users, db.memberships, mappings[k].groupId))
    ensures var g := mappings[k].groupId;
            var current := CurrentEmails(db.users, SyncedMembers(db.users, db.memberships, g));
            && IsSnapshot(db.users, db.memberships, serverId, g, current)
            && UsersOf(current, Gone(current, Pairs(mappings), g)) == Removed(db.users, db.memberships, Pairs(mappings), g)
            && |Gone(current, Pairs(mappings), g)| == |Removed(db.users, db.memberships, Pairs(mappings), g)|
  {
    hide Pairs, UniqueEmails, UniqueNames, Lower;
    var g := mappings[k].groupId;
    var members := SyncedMembers(db.users, db.memberships, g);
    var current := CurrentEmails(db.users, members);
    forall e | e in current ensures IsUserOf(db.users, current[e], serverId, e) {
      assert Role(db.memberships, current[e], mappings[k].groupId).Some?;
    }
    var gone := Gone(current, Pairs(mappings), g);
    forall u | u in Removed(db.users, db.memberships, Pairs(mappings), g) ensures u in UsersOf(current, gone) {
      var e := Lower(db.users[u].email);
      assert e in current && current[e] == u;
    }
    assert UsersOf(current, gone) == Removed(db.users, db.memberships, Pairs(mappings), g);
    forall d, e | d in gone && e in gone && current[d] == current[e] ensures d == e {
    }
    ImageSize(current, gone);
  }

  lemma {:induction false} ImageSize(current: map<string, Uid>, emails: set<string>)
    requires emails <= current.Keys
    requires forall d, e :: d in emails && e in emails && current[d] == current[e] ==> d == e
    ensures |UsersOf(current, emails)| == |emails|
    decreases |emails|
  {
    if emails == {} {
      assert UsersOf(current, emails) == {};
    } else {
      var e :| e in emails;
      ImageSize(current, emails - {e});
      assert UsersOf(current, emails) == UsersOf(current, emails - {e}) + {current[e]};
    }
  }

  lemma SnapshotStays(users: Users, memberships: Memberships, users2: Users, memberships2: Memberships,
                      serverId: string, g: Gid, current: map<string, Uid>)
    requires IsSnapshot(users, memberships, serverId, g, current) && Grows(users, memberships, users2, memberships2)
    ensures IsSnapshot(users2, memberships2, serverId, g, current)
  {
  }

  // What a run means --------------------------------------------------------------------

  lemma {:induction false} RemovedFromMeaning(db: Db, listed: set<(Gid, string)>, mappings: seq<Mapping>, u: Uid)
    ensures u in RemovedFrom(db, listed, mappings)
            <==> exists i :: 0 <= i < |mappings| && u in Removed(db.users, db.memberships, listed, mappings[i].groupId)
  {
    hide Removed;
    if mappings != [] {
      var n := |mappings| - 1;
      RemovedFromMeaning(db, listed, mappings[..n], u);
      forall i | 0 <= i < n ensures mappings[..n][i] == mappings[i] {
      }
    }
  }

  /** Everyone whom a mapping lists is a user of the server and a synced member of the
      group of that mapping. */
  lemma ListedAreMembers(before: Db, db: Db, serverId: string, mappings: seq<Mapping>, i: nat, email: string)
    requires SyncedWith(before, db, serverId, mappings) && i < |mappings| && email in Listing(mappings[i])
    ensures exists u :: IsUserOf(db.users, u, serverId, email) && u in SyncedMembers(db.users, db.memberships, mappings[i].groupId)
  {
    hide Listing, UniqueEmails, UniqueNames, MembersExist;
    var g := mappings[i].groupId;
    PairsMeaning(mappings, g, email);
    assert HasUser(db.users, serverId, email);
    var u :| IsUserOf(db.users, u, serverId, email);
    assert Wanted(db.users, serverId, Pairs(mappings), u, g);
    assert Role(db.memberships, u, g) == Some(GoogleSync);
  }

  /** No mapping of that group lists that e-mail. */
  ghost predicate Unlisted(mappings: seq<Mapping>, g: Gid, email: string) {
    forall j :: 0 <= j < |mappings| && mappings[j].groupId == g ==> email !in Listing(mappings[j])
  }

  /** The users newly flagged are exactly those who were synced members of a mapped
      group and whom no mapping of that group lists. */
  lemma FlaggedIff(before: Db, db: Db, serverId: string, mappings: seq<Mapping>, u: Uid)
    requires SyncedWith(before, db, serverId, mappings)
    ensures u in db.flagged
            <==> || u in before.flagged
                 || exists i :: && 0 <= i < |mappings|
                                && u in SyncedMembers(before.users, before.memberships, mappings[i].groupId)
                                && Unlisted(mappings, mappings[i].groupId, Lower(before.users[u].email))
  {
    hide Listing, Lower, Added, SyncedMembers;
    RemovedFromMeaning(before, Pairs(mappings), mappings, u);
    forall i | 0 <= i < |mappings| && u in SyncedMembers(before.users, before.memberships, mappings[i].groupId)
      ensures u in before.users
      ensures u in Removed(before.users, before.memberships, Pairs(mappings), mappings[i].groupId)
              <==> Unlisted(mappings, mappings[i].groupId, Lower(before.users[u].email))
    {
      SyncedMembersExist(before.users, before.memberships, mappings[i].groupId, u);
      PairsMeaning(mappings, mappings[i].groupId, Lower(before.users[u].email));
    }
  }

  lemma SyncedMembersExist(users: Users, memberships: Memberships, g: Gid, u: Uid)
    requires u in SyncedMembers(users, memberships, g)
    ensures u in users
  {
  }

  /** Memberships of groups without a mapping stay as they are, and nobody loses one. */
  lemma OtherMembershipsStay(before: Db, db: Db, serverId: string, mappings: seq<Mapping>, u: Uid, g: Gid)
    requires SyncedWith(before, db, serverId, mappings)
    ensures Role(before.memberships, u, g).Some? ==> Role(db.memberships, u, g).Some?
    ensures (forall i :: 0 <= i < |mappings| ==> mappings[i].groupId != g) ==> Role(db.memberships, u, g) == Role(before.memberships, u, g)
  {
    hide Listing, UsersAdded, Keyed;
    if Wanted(db.users, serverId, Pairs(mappings), u, g) {
      PairsMeaning(mappings, g, db.users[u].email);
    }
  }

  /** A run leaves the tables fit for the next one. */
  lemma RunKeepsFit(before: Db, db: Db, serverId: string, mappings: seq<Mapping>)
    requires Fit(before, serverId, mappings) && SyncedWith(before, db, serverId, mappings)
    ensures Fit(db, serverId, mappings)
  {
    hide Fit, Added;
    PairsAreLower(mappings);
    FitAfter(before, db, serverId, Pairs(mappings), mappings);
  }

  lemma RemovedAfterRun(before: Db, db: Db, serverId: string, listed: set<(Gid, string)>, all: seq<Mapping>, mappings: seq<Mapping>)
    requires Fit(before, serverId, all) && Fit(db, serverId, all) && Added(before, db, serverId, listed)
    ensures RemovedFrom(db, listed, mappings) == RemovedFrom(before, listed, mappings)
  {
    hide Added, Removed, LowerCase, Keyed;
    if mappings != [] {
      var n := |mappings| - 1;
      RemovedAfterRun(before, db, serverId, listed, all, mappings[..n]);
      RemovedIsStable(before, db, serverId, listed, listed, mappings[n].groupId);
    }
  }

  lemma NobodyNew(before: Db, mid: Db, after: Db, serverId: string, done: set<(Gid, string)>)
    requires Added(before, mid, serverId, done) && Added(mid, after, serverId, done)
    ensures after.users == mid.users
  {
    hide RolesAdded, UniqueNames, MembersExist;
    forall u | u in after.users ensures u in mid.users {
    }
  }

  lemma SameRoles(a: Memberships, b: Memberships)
    requires forall u: Uid, g: Gid :: Role(a, u, g) == Role(b, u, g)
    ensures a == b
  {
    forall key: (Uid, Gid) ensures key in a <==> key in b {
      assert Role(a, key.0, key.1) == Role(b, key.0, key.1);
    }
    forall key: (Uid, Gid) | key in a ensures a[key] == b[key] {
      assert Role(a, key.0, key.1) == Role(b, key.0, key.1);
    }
  }

  /** The sync reaches its fixpoint at once: a second run on the same listings adds no
      user and no membership, and flags nobody. */
  lemma SecondRunChangesNothing(before: Db, mid: Db, after: Db, serverId: string, mappings: seq<Mapping>)
    requires Fit(before, serverId, mappings)
    requires SyncedWith(before, mid, serverId, mappings) && SyncedWith(mid, after, serverId, mappings)
    ensures after.users == mid.users && after.memberships == mid.memberships && after.flagged == mid.flagged
  {
    var done := Pairs(mappings);
    RunKeepsFit(before, mid, serverId, mappings);
    NobodyNew(before, mid, after, serverId, done);
    hide Fit, Pairs, RemovedFrom, UsersAdded, Wanted, Keyed;
    RemovedAfterRun(before, mid, serverId, done, mappings, mappings);
    forall u: Uid, g: Gid ensures Role(after.memberships, u, g) == Role(mid.memberships, u, g) {
    }
    SameRoles(after.memberships, mid.memberships);
  }

  lemma SamePairs(a: seq<Mapping>, b: seq<Mapping>)
    requires forall m :: m in a ==> m in b
    ensures Pairs(a) <= Pairs(b)
  {
    hide Listing;
    forall p | p in Pairs(a) ensures p in Pairs(b) {
      PairsMeaning(a, p.0, p.1);
      PairsMeaning(b, p.0, p.1);
      var i :| 0 <= i < |a| && a[i].groupId == p.0 && p.1 in Listing(a[i]);
      assert a[i] in b;
    }
  }

  lemma SameRemoved(db: Db, listed: set<(Gid, string)>, a: seq<Mapping>, b: seq<Mapping>)
    requires forall m :: m in a ==> m in b
    ensures RemovedFrom(db, listed, a) <= RemovedFrom(db, listed, b)
  {
    hide Removed;
    forall u | u in RemovedFrom(db, listed, a) ensures u in RemovedFrom(db, listed, b) {
      RemovedFromMeaning(db, listed, a, u);
      RemovedFromMeaning(db, listed, b, u);
      var i :| 0 <= i < |a| && u in Removed(db.users, db.memberships, listed, a[i].groupId);
      assert a[i] in b;
    }
  }

  /** What a run determines whatever the order of the mappings, and of the e-mails in a
      listing: which e-mails have a user, what part everyone has in every group, who is
      flagged, and every user that was there before. */
  lemma OrderDetermines(before: Db, db1: Db, db2: Db, serverId: string, a: seq<Mapping>, b: seq<Mapping>)
    requires Keyed(before) && forall m :: m in a <==> m in b
    requires SyncedWith(before, db1, serverId, a) && SyncedWith(before, db2, serverId, b)
    ensures forall e :: HasUser(db1.users, serverId, e) <==> HasUser(db2.users, serverId, e)
    ensures forall u, v, e, g :: IsUserOf(db1.users, u, serverId, e) && IsUserOf(db2.users, v, serverId, e)
                                 ==> Role(db1.memberships, u, g) == Role(db2.memberships, v, g)
    ensures forall u :: u in before.users ==> u in db1.users && u in db2.users && db1.users[u] == db2.users[u]
    ensures db1.flagged == db2.flagged
  {
    SamePairs(a, b);
    SamePairs(b, a);
    SameRemoved(before, Pairs(a), a, b);
    SameRemoved(before, Pairs(a), b, a);
    assert Pairs(a) == Pairs(b);
    assert RemovedFrom(before, Pairs(a), a) == RemovedFrom(before, Pairs(b), b);
    hide Pairs, RemovedFrom, UniqueNames, NamesGiven, HasUser;
    forall e ensures HasUser(db1.users, serverId, e) <==> HasUser(db2.users, serverId, e) {
      SameEmails(before, db1, db2, serverId, Pairs(a), e);
      SameEmails(before, db2, db1, serverId, Pairs(a), e);
    }
    forall u, v, e, g | IsUserOf(db1.users, u, serverId, e) && IsUserOf(db2.users, v, serverId, e)
      ensures Role(db1.memberships, u, g) == Role(db2.memberships, v, g)
    {
      SameRole(before, db1, db2, serverId, Pairs(a), u, v, e, g);
    }
  }

  lemma SameEmails(before: Db, db1: Db, db2: Db, serverId: string, done: set<(Gid, string)>, e: string)
    requires Added(before, db1, serverId, done) && Added(before, db2, serverId, done)
    ensures HasUser(db1.users, serverId, e) ==> HasUser(db2.users, serverId, e)
  {
    hide RolesAdded, UniqueNames, NamesGiven, MembersExist;
    if u :| IsUserOf(db1.users, u, serverId, e) {
      if u in before.users {
        assert IsUserOf(db2.users, u, serverId, e);
      } else {
        assert AskedFor(e, done);
        var g :| (g, e) in done;
      }
    }
  }

  lemma SameRole(before: Db, db1: Db, db2: Db, serverId: string, done: set<(Gid, string)>, u: Uid, v: Uid, e: string, g: Gid)
    requires Keyed(before) && Added(before, db1, serverId, done) && Added(before, db2, serverId, done)
    requires IsUserOf(db1.users, u, serverId, e) && IsUserOf(db2.users, v, serverId, e)
    ensures Role(db1.memberships, u, g) == Role(db2.memberships, v, g)
  {
    hide UniqueNames, NamesGiven;
    assert Role(before.memberships, u, g) == Role(before.memberships, v, g) by {
      if u in before.users || v in before.users {
        assert u == v;
      } else {
        assert Role(before.memberships, u, g) == Role(before.memberships, v, g) == None;
      }
    }
  }

  // The counters ------------------------------------------------------------------------

  /** The listed e-mails that have no user on the server. */
  ghost function MissingEmails(users: Users, serverId: string, mappings: seq<Mapping>): set<string> {
    set p | p in Pairs(mappings) && !HasUser(users, serverId, p.1) :: p.1
  }

  ghost function EmailsOf(users: Users, ids: set<Uid>): set<string> {
    set u | u in ids && u in users :: users[u].email
  }

  lemma {:induction false} EmailsOfSize(users: Users, ids: set<Uid>)
    requires ids <= users.Keys
    requires forall u, v :: u in ids && v in ids && users[u].email == users[v].email ==> u == v
    ensures |EmailsOf(users, ids)| == |ids|
    decreases |ids|
  {
    if ids == {} {
      assert EmailsOf(users, ids) == {};
    } else {
      var u :| u in ids;
      EmailsOfSize(users, ids - {u});
      assert EmailsOf(users, ids) == EmailsOf(users, ids - {u}) + {users[u].email};
    }
  }

  /** The users added are one for each listed e-mail without a user. */
  lemma UsersAddedCount(before: Db, db: Db, serverId: string, mappings: seq<Mapping>)
    requires Keyed(before) && SyncedWith(before, db, serverId, mappings)
    ensures |db.users| - |before.users| == |MissingEmails(before.users, serverId, mappings)|
  {
    hide *;
    NewUsersApart(before, db, serverId, mappings);
    NewEmails(before, db, serverId, mappings);
    EmailsOfSize(db.users, db.users.Keys - before.users.Keys);
    SizeOfRest(db.users.Keys, before.users.Keys);
  }

  lemma SizeOfRest(all: set<Uid>, some: set<Uid>)
    requires some <= all
    ensures |all - some| == |all| - |some|
  {
    assert all == some + (all - some);
  }

  lemma NewEmails(before: Db, db: Db, serverId: string, mappings: seq<Mapping>)
    requires Keyed(before) && SyncedWith(before, db, serverId, mappings)
    ensures EmailsOf(db.users, db.users.Keys - before.users.Keys) == MissingEmails(before.users, serverId, mappings)
  {
    hide Keyed, SyncedWith, MissingEmails;
    forall e ensures e in EmailsOf(db.users, db.users.Keys - before.users.Keys)
                     <==> e in MissingEmails(before.users, serverId, mappings)
    {
      NewIffMissing(before, db, serverId, mappings, e);
    }
  }

  lemma NewUsersApart(before: Db, db: Db, serverId: string, mappings: seq<Mapping>)
    requires SyncedWith(before, db, serverId, mappings)
    ensures before.users.Keys <= db.users.Keys
    ensures var added := db.users.Keys - before.users.Keys;
            forall u, v :: u in added && v in added && db.users[u].email == db.users[v].email ==> u == v
  {
    hide Pairs, UniqueNames, MembersExist, RolesAdded, RemovedFrom;
  }

  lemma NewIffMissing(before: Db, db: Db, serverId: string, mappings: seq<Mapping>, email: string)
    requires Keyed(before) && SyncedWith(before, db, serverId, mappings)
    ensures (exists u :: u in db.users && u !in before.users && db.users[u].email == email)
            <==> email in MissingEmails(before.users, serverId, mappings)
  {
    hide Pairs, UniqueNames, MembersExist, RolesAdded, RemovedFrom;
    if u :| u in db.users && u !in before.users && db.users[u].email == email {
      assert AskedFor(email, Pairs(mappings));
      var g :| (g, email) in Pairs(mappings);
      assert (g, email).1 == email;
    }
    if email in MissingEmails(before.users, serverId, mappings) {
      var p :| p in Pairs(mappings) && !HasUser(before.users, serverId, p.1) && p.1 == email;
      assert (p.0, email) in Pairs(mappings);
      assert HasUser(db.users, serverId, email);
      var v :| IsUserOf(db.users, v, serverId, email);
      assert v in before.users <==> IsUserOf(before.users, v, serverId, email);
    }
  }

  lemma UnionSize(a: set<Uid>, b: set<Uid>)
    ensures |a + b| <= |a| + |b|
    ensures |a + b| == |a| + |b| <==> a !! b
  {
    assert a + b == a + (b - a);
    assert b == (b - a) + (a * b);
    assert |a + b| == |a| + |b - a|;
    assert |b| == |b - a| + |a * b|;
  }

  ghost predicate RemovedApart(db: Db, listed: set<(Gid, string)>, mappings: seq<Mapping>) {
    forall i, j :: 0 <= i < j < |mappings| ==>
      Removed(db.users, db.memberships, listed, mappings[i].groupId) !! Removed(db.users, db.memberships, listed, mappings[j].groupId)
  }

  lemma DisjointFromAll(db: Db, listed: set<(Gid, string)>, mappings: seq<Mapping>, others: set<Uid>)
    ensures RemovedFrom(db, listed, mappings) !! others
            <==> forall i :: 0 <= i < |mappings| ==>
                   Removed(db.users, db.memberships, listed, mappings[i].groupId) !! others
  {
    hide Removed, RemovedFrom;
    forall u ensures u in RemovedFrom(db, listed, mappings)
                     <==> exists i :: 0 <= i < |mappings| && u in Removed(db.users, db.memberships, listed, mappings[i].groupId)
    {
      RemovedFromMeaning(db, listed, mappings, u);
    }
  }

  lemma RemovedApartStep(db: Db, listed: set<(Gid, string)>, mappings: seq<Mapping>)
    requires mappings != []
    ensures var n := |mappings| - 1;
            RemovedApart(db, listed, mappings)
            <==> && RemovedApart(db, listed, mappings[..n])
                 && RemovedFrom(db, listed, mappings[..n]) !! Removed(db.users, db.memberships, listed, mappings[n].groupId)
  {
    hide Removed, RemovedFrom;
    var n := |mappings| - 1;
    DisjointFromAll(db, listed, mappings[..n], Removed(db.users, db.memberships, listed, mappings[n].groupId));
    assert forall i :: 0 <= i < n ==> mappings[..n][i] == mappings[i];
  }

  /** Sizes add up to the size of the union exactly for sets apart. */
  lemma {:induction false} CountOfApart(db: Db, listed: set<(Gid, string)>, mappings: seq<Mapping>)
    ensures CountRemoved(db, listed, mappings) >= |RemovedFrom(db, listed, mappings)|
    ensures CountRemoved(db, listed, mappings) == |RemovedFrom(db, listed, mappings)| <==> RemovedApart(db, listed, mappings)
  {
    if mappings != [] {
      var n := |mappings| - 1;
      hide Removed, RemovedApart;
      CountOfApart(db, listed, mappings[..n]);
      UnionSize(RemovedFrom(db, listed, mappings[..n]), Removed(db.users, db.memberships, listed, mappings[n].groupId));
      RemovedApartStep(db, listed, mappings);
    }
  }

  /** A synced member of the group of a mapping whom no mapping of that group lists. */
  ghost predicate RemovedUnder(db: Db, mappings: seq<Mapping>, i: nat, u: Uid)
    requires i < |mappings|
  {
    && u in db.users && Role(db.memberships, u, mappings[i].groupId) == Some(GoogleSync)
    && Unlisted(mappings, mappings[i].groupId, Lower(db.users[u].email))
  }

  ghost predicate RemovedTwice(db: Db, mappings: seq<Mapping>, u: Uid) {
    exists i, j :: 0 <= i < j < |mappings| && RemovedUnder(db, mappings, i, u) && RemovedUnder(db, mappings, j, u)
  }

  lemma RemovedUnderIff(db: Db, mappings: seq<Mapping>, i: nat, u: Uid)
    requires i < |mappings|
    ensures RemovedUnder(db, mappings, i, u)
            <==> u in Removed(db.users, db.memberships, Pairs(mappings), mappings[i].groupId)
  {
    hide Listing, Lower;
    if u in db.users {
      PairsMeaning(mappings, mappings[i].groupId, Lower(db.users[u].email));
    }
  }

  /** The counter of flagged users is the number of users a run flags exactly when nobody
      is an unlisted synced member under two mappings, be it of one group or of two. */
  lemma FlagCounterIsExactIff(db: Db, mappings: seq<Mapping>)
    ensures CountRemoved(db, Pairs(mappings), mappings) == |RemovedFrom(db, Pairs(mappings), mappings)|
            <==> forall u :: !RemovedTwice(db, mappings, u)
  {
    hide Removed, RemovedUnder, Pairs, CountRemoved, RemovedFrom;
    CountOfApart(db, Pairs(mappings), mappings);
    forall i, u | 0 <= i < |mappings|
      ensures RemovedUnder(db, mappings, i, u)
              <==> u in Removed(db.users, db.memberships, Pairs(mappings), mappings[i].groupId)
    {
      RemovedUnderIff(db, mappings, i, u);
    }
    if u :| RemovedTwice(db, mappings, u) {
      var i, j :| 0 <= i < j < |mappings| && RemovedUnder(db, mappings, i, u) && RemovedUnder(db, mappings, j, u);
      assert !RemovedApart(db, Pairs(mappings), mappings);
    } else {
      forall i, j | 0 <= i < j < |mappings|
        ensures Removed(db.users, db.memberships, Pairs(mappings), mappings[i].groupId)
                !! Removed(db.users, db.memberships, Pairs(mappings), mappings[j].groupId)
      {
        forall u ensures !(RemovedUnder(db, mappings, i, u) && RemovedUnder(db, mappings, j, u)) {
          assert !RemovedTwice(db, mappings, u);
        }
      }
    }
  }

  /** One group with two mappings that list nobody, and one synced member: one user is
      flagged, two are counted. */
  lemma TwoMappingsCountTwice(user: VpnUser, g: Gid)
    ensures var db := Db(map[0 := user], map[(0, g) := GoogleSync], {}, 1);
            var mappings := [Mapping("m1", g, []), Mapping("m2", g, [])];
            && RemovedFrom(db, Pairs(mappings), mappings) == {0}
            && CountRemoved(db, Pairs(mappings), mappings) == 2
  {
    hide Lower;
    var db := Db(map[0 := user], map[(0, g) := GoogleSync], {}, 1);
    var m1, m2 := Mapping("m1", g, []), Mapping("m2", g, []);
    assert [m1, m2][..1] == [m1] && [m1][..0] == [];
    assert Pairs([m1]) == Pairs([]) + PairsOf(m1) == {};
    assert Pairs([m1, m2]) == {};
    assert Role(db.memberships, 0, g) == Some(GoogleSync);
    assert Removed(db.users, db.memberships, {}, g) == {0};
    assert RemovedFrom(db, {}, [m1]) == RemovedFrom(db, {}, []) + {0};
    assert CountRemoved(db, {}, [m1]) == CountRemoved(db, {}, []) + 1;
  }
}
