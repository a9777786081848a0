/** Which common names a directory sync gives, and when they depend on the order in
    which the directory answers. */
module SyncNames {
  import opened Text
  import opened Schema
  import opened Collections
  import opened CommonNames
  import opened SyncEngine

  /** The name an e-mail gets when it is the first one dealt with. */
  function NameAlone(before: Db, serverId: string, email: string): string {
    FirstFreeName(DeriveCommonNameFromEmail(email), NamesOn(before.users, serverId))
  }

  /** No two of the people to be added would get one name if each came first. */
  ghost predicate NamesApart(before: Db, serverId: string, mappings: seq<Mapping>) {
    var missing := MissingEmails(before.users, serverId, mappings);
    forall e, f ::
      e in missing && f in missing && NameAlone(before, serverId, e) == NameAlone(before, serverId, f) ==> e == f
  }

  // Names apart: everyone gets the name it would get alone --------------------------

  lemma EarlierHasOld(before: Db, db: Db, serverId: string, u: Uid)
    requires IdsUsed(before.users, before.nextId) && before.nextId <= u
    requires forall v :: v in before.users ==> v in db.users && db.users[v] == before.users[v]
    ensures NamesOn(before.users, serverId) <= EarlierNames(db.users, u, serverId)
  {
    forall name | name in NamesOn(before.users, serverId) ensures name in EarlierNames(db.users, u, serverId) {
      var v :| v in before.users && before.users[v].serverId == serverId && before.users[v].commonName == name;
      assert v in db.users && v < u;
    }
  }

  /** The first free name stays the first free one while others are taken. */
  lemma FirstFreeStays(base: string, taken: set<string>, more: set<string>)
    requires taken <= more && FirstFreeName(base, taken) !in more
    ensures FirstFreeName(base, more) == FirstFreeName(base, taken)
  {
    hide Suffixed, FirstFreeName;
    var name := FirstFreeName(base, taken);
    FirstFreeNameIff(base, taken, name);
    SubsetSize(taken, more);
    FirstFreeNameIff(base, more, name);
  }

  lemma NewIsMissing(before: Db, db: Db, serverId: string, mappings: seq<Mapping>, u: Uid)
    requires Keyed(before) && SyncedWith(before, db, serverId, mappings) && u in db.users && u !in before.users
    ensures db.users[u].email in MissingEmails(before.users, serverId, mappings)
  {
    hide Keyed, SyncedWith, MissingEmails;
    NewIffMissing(before, db, serverId, mappings, db.users[u].email);
  }

  lemma {:induction false} NamesAreDetermined(before: Db, db: Db, serverId: string, mappings: seq<Mapping>, u: Uid)
    requires Keyed(before) && SyncedWith(before, db, serverId, mappings) && NamesApart(before, serverId, mappings)
    requires u in db.users && u !in before.users
    ensures db.users[u].commonName == NameAlone(before, serverId, db.users[u].email)
    decreases u
  {
    hide RolesAdded, RemovedFrom, Pairs, FirstFreeName, DeriveCommonNameFromEmail, MissingEmails, UniqueNames, MembersExist,
         IsFirstFree, NamesOn, EarlierNames;
    var base := DeriveCommonNameFromEmail(db.users[u].email);
    var taken, more := NamesOn(before.users, serverId), EarlierNames(db.users, u, serverId);
    NewIsMissing(before, db, serverId, mappings, u);
    EarlierHasOld(before, db, serverId, u);
    FirstFreeNameIff(base, more, db.users[u].commonName);
    FirstFreeNameIff(base, taken, NameAlone(before, serverId, db.users[u].email));
    FreeIsFree(base, taken, NameAlone(before, serverId, db.users[u].email));
    if NameAlone(before, serverId, db.users[u].email) in more {
      var v := WhoseName(db.users, u, serverId, NameAlone(before, serverId, db.users[u].email));
      if v in before.users {
        InNames(before.users, v, serverId);
      } else {
        NamesAreDetermined(before, db, serverId, mappings, v);
        NewIsMissing(before, db, serverId, mappings, v);
      }
    }
    FirstFreeStays(base, taken, more);
  }

  lemma WhoseName(users: Users, u: Uid, serverId: string, name: string) returns (v: Uid)
    requires name in EarlierNames(users, u, serverId)
    ensures v in users && v < u && users[v].serverId == serverId && users[v].commonName == name
  {
    v :| v in users && v < u && users[v].serverId == serverId && users[v].commonName == name;
  }

  lemma InNames(users: Users, v: Uid, serverId: string)
    requires v in users && users[v].serverId == serverId
    ensures users[v].commonName in NamesOn(users, serverId)
  {
  }

  // Answers in another order ----------------------------------------------------------

  /** A mapping but for the order of its members. */
  function Shape(m: Mapping): (string, Gid, multiset<Member>) {
    (m.id, m.groupId, multiset(m.members))
  }

  function Shapes(mappings: seq<Mapping>): (r: seq<(string, Gid, multiset<Member>)>)
    ensures |r| == |mappings| && forall i :: 0 <= i < |mappings| ==> r[i] == Shape(mappings[i])
  {
    seq(|mappings|, i requires 0 <= i < |mappings| => Shape(mappings[i]))
  }

  /** The same mappings with the same members, both in any order. */
  ghost predicate Rearranged(a: seq<Mapping>, b: seq<Mapping>) {
    multiset(Shapes(a)) == multiset(Shapes(b))
  }

  lemma SameShapeSameListing(a: Mapping, b: Mapping)
    requires Shape(a) == Shape(b)
    ensures a.groupId == b.groupId && Listing(a) == Listing(b)
  {
    forall x ensures x in a.members <==> x in b.members {
      assert x in multiset(a.members) <==> x in multiset(b.members);
    }
  }

  lemma RearrangedPairs(a: seq<Mapping>, b: seq<Mapping>)
    requires Rearranged(a, b)
    ensures Pairs(a) <= Pairs(b)
  {
    hide Listing, Shape;
    forall p | p in Pairs(a) ensures p in Pairs(b) {
      PairsMeaning(a, p.0, p.1);
      PairsMeaning(b, p.0, p.1);
      var i :| 0 <= i < |a| && a[i].groupId == p.0 && p.1 in Listing(a[i]);
      assert Shapes(a)[i] in multiset(Shapes(b));
      var j :| 0 <= j < |b| && Shapes(b)[j] == Shapes(a)[i];
      SameShapeSameListing(a[i], b[j]);
    }
  }

  /** All users of the server with one e-mail have one name in both tables. */
  ghost predicate SameNames(db1: Db, db2: Db, serverId: string) {
    forall u, v, e :: IsUserOf(db1.users, u, serverId, e) && IsUserOf(db2.users, v, serverId, e)
                      ==> db1.users[u].commonName == db2.users[v].commonName
  }

  lemma ApartGivesSameNames(before: Db, db1: Db, db2: Db, serverId: string, a: seq<Mapping>, b: seq<Mapping>)
    requires Keyed(before) && NamesApart(before, serverId, a) && Pairs(a) == Pairs(b)
    requires SyncedWith(before, db1, serverId, a) && SyncedWith(before, db2, serverId, b)
    ensures SameNames(db1, db2, serverId)
  {
    assert NamesApart(before, serverId, b);
    hide NamesApart, RolesAdded, RemovedFrom, Pairs, UniqueNames, MembersExist, NamesGiven, NameAlone;
    forall u, v, e | IsUserOf(db1.users, u, serverId, e) && IsUserOf(db2.users, v, serverId, e)
      ensures db1.users[u].commonName == db2.users[v].commonName
    {
      if u in before.users || v in before.users {
        assert u == v;
      } else {
        NamesAreDetermined(before, db1, serverId, a, u);
        NamesAreDetermined(before, db2, serverId, b, v);
      }
    }
  }

  // Not apart: whoever comes first gets the name ----------------------------------------

  /** The mappings with one member of one of them moved to the very front. */
  function Fronted(mappings: seq<Mapping>, i: nat, k: nat): seq<Mapping>
    requires i < |mappings| && k < |mappings[i].members|
  {
    var m := mappings[i];
    [m.(members := [m.members[k]] + m.members[..k] + m.members[k + 1..])] + mappings[..i] + mappings[i + 1..]
  }

  lemma MovedToFront<T>(list: seq<T>, k: nat)
    requires k < |list|
    ensures multiset([list[k]] + list[..k] + list[k + 1..]) == multiset(list)
  {
    assert list == list[..k] + [list[k]] + list[k + 1..];
  }

  lemma FrontedIsRearranged(mappings: seq<Mapping>, i: nat, k: nat)
    requires i < |mappings| && k < |mappings[i].members|
    ensures Rearranged(mappings, Fronted(mappings, i, k))
  {
    var s := Shapes(mappings);
    FrontedShape(mappings[i], k);
    MovedToFront(s, i);
    hide Shape;
    var front := Fronted(mappings, i, k);
    var moved := [s[i]] + s[..i] + s[i + 1..];
    assert |Shapes(front)| == |moved|;
    forall j | 0 <= j < |moved| ensures Shapes(front)[j] == moved[j] {
    }
    assert Shapes(front) == moved;
  }

  lemma FrontedShape(m: Mapping, k: nat)
    requires k < |m.members|
    ensures Shape(m.(members := [m.members[k]] + m.members[..k] + m.members[k + 1..])) == Shape(m)
  {
    MovedToFront(m.members, k);
  }

  lemma {:induction false} EmailsInStart(members: seq<Member>)
    requires members != [] && members[0].isUser && members[0].isActive
    ensures EmailsIn(members) != [] && EmailsIn(members)[0] == Lower(members[0].email)
  {
    hide Lower;
    if |members| == 1 {
      assert members[..0] == [];
    } else {
      EmailsInStart(members[..|members| - 1]);
    }
  }

  lemma {:induction false} OrderStart(mappings: seq<Mapping>)
    requires mappings != [] && EmailsIn(mappings[0].members) != []
    ensures Order(mappings) != [] && Order(mappings)[0] == (mappings[0].groupId, EmailsIn(mappings[0].members)[0])
  {
    hide EmailsIn;
    if |mappings| == 1 {
      assert mappings[..0] == [];
    } else {
      OrderStart(mappings[..|mappings| - 1]);
    }
  }

  /** A listed e-mail can be the very first. */
  lemma CanComeFirst(before: Db, serverId: string, mappings: seq<Mapping>, email: string) returns (other: seq<Mapping>)
    requires email in MissingEmails(before.users, serverId, mappings)
    ensures Rearranged(mappings, other) && Order(other) != [] && Order(other)[0].1 == email
  {
    var p :| p in Pairs(mappings) && !HasUser(before.users, serverId, p.1) && p.1 == email;
    hide Lower, Pairs, EmailsIn, Order, HasUser;
    PairsMeaning(mappings, p.0, p.1);
    var i :| 0 <= i < |mappings| && mappings[i].groupId == p.0 && p.1 in Listing(mappings[i]);
    var x :| x in mappings[i].members && x.isUser && x.isActive && Lower(x.email) == p.1;
    var k :| 0 <= k < |mappings[i].members| && mappings[i].members[k] == x;
    other := Fronted(mappings, i, k);
    FrontedIsRearranged(mappings, i, k);
    EmailsInStart(other[0].members);
    OrderStart(other);
  }

  lemma {:induction false} DealtAllGrows(db: Db, serverId: string, order: seq<(Gid, string)>, u: Uid)
    requires Keyed(db) && u in db.users
    ensures u in DealtAll(db, serverId, order).users && DealtAll(db, serverId, order).users[u] == db.users[u]
  {
    hide Keyed, DealtAll, RolesAdded, NamesGiven;
    DealtAllIsAdded(db, serverId, order);
  }

  /** The first e-mail of a run, if it has no user, gets the name it would get alone. */
  lemma FirstGetsItsName(before: Db, serverId: string, mappings: seq<Mapping>)
    requires Keyed(before) && Order(mappings) != [] && !HasUser(before.users, serverId, Order(mappings)[0].1)
    ensures var db := Synced(before, serverId, mappings);
            NameOf(db, serverId, Order(mappings)[0].1, NameAlone(before, serverId, Order(mappings)[0].1))
  {
    hide HasUser, RemovedFrom, Pairs, Order, FirstFreeName, DeriveCommonNameFromEmail;
    var order := Order(mappings);
    var (g, email) := order[0];
    var one := Dealt(before, serverId, order[0]);
    assert one.users[before.nextId] == NewUser(email, NameAlone(before, serverId, email), serverId);
    assert DealtAll(before, serverId, [order[0]]) == one by {
      assert [order[0]][..0] == [];
    }
    assert order == [order[0]] + order[1..];
    DealtAllOfSum(before, serverId, [order[0]], order[1..]);
    OneIsKeyed(before, serverId, order[0]);
    hide DealtAll, Dealt;
    DealtAllGrows(one, serverId, order[1..], before.nextId);
    SyncedIsSyncedWith(before, serverId, mappings);
    UsersOfRun(before, serverId, mappings);
    OnlyUser(Synced(before, serverId, mappings), serverId, email, before.nextId);
  }

  lemma OneIsKeyed(before: Db, serverId: string, p: (Gid, string))
    requires Keyed(before)
    ensures Keyed(Dealt(before, serverId, p))
  {
    hide Keyed, Dealt;
    NothingAdded(before, serverId);
    DealtIsAdded(before, before, serverId, {}, p);
  }

  lemma UsersOfRun(before: Db, serverId: string, mappings: seq<Mapping>)
    requires Keyed(before)
    ensures Synced(before, serverId, mappings).users == DealtAll(before, serverId, Order(mappings)).users
    ensures UniqueEmails(Synced(before, serverId, mappings).users) && UniqueNames(Synced(before, serverId, mappings).users)
  {
    hide Synced, DealtAll, Order, UniqueEmails, UniqueNames;
    SyncedIsSyncedWith(before, serverId, mappings);
    SyncedUsers(before, serverId, mappings);
  }

  lemma SyncedUsers(before: Db, serverId: string, mappings: seq<Mapping>)
    ensures Synced(before, serverId, mappings).users == DealtAll(before, serverId, Order(mappings)).users
  {
    hide DealtAll, Order, RemovedFrom, Pairs;
  }

  lemma OnlyUser(db: Db, serverId: string, email: string, u: Uid)
    requires UniqueEmails(db.users) && IsUserOf(db.users, u, serverId, email)
    ensures NameOf(db, serverId, email, db.users[u].commonName)
  {
  }

  /** All users of the server with that e-mail have that name, and there is one. */
  ghost predicate NameOf(db: Db, serverId: string, email: string, name: string) {
    && HasUser(db.users, serverId, email)
    && forall u :: IsUserOf(db.users, u, serverId, email) ==> db.users[u].commonName == name
  }

  lemma NamesDiffer(db: Db, serverId: string, e: string, f: string, name: string)
    requires UniqueNames(db.users) && NameOf(db, serverId, e, name) && e != f
    ensures !NameOf(db, serverId, f, name)
  {
    var u :| IsUserOf(db.users, u, serverId, e);
  }

  lemma SameNamesSameNameOf(db1: Db, db2: Db, serverId: string, email: string, name: string)
    requires SameNames(db1, db2, serverId) && HasUser(db1.users, serverId, email)
    requires NameOf(db2, serverId, email, name)
    ensures NameOf(db1, serverId, email, name)
  {
    var v :| IsUserOf(db2.users, v, serverId, email);
  }

  lemma AskedIsThere(before: Db, serverId: string, mappings: seq<Mapping>, email: string)
    requires Keyed(before) && email in MissingEmails(before.users, serverId, mappings)
    ensures HasUser(Synced(before, serverId, mappings).users, serverId, email)
  {
    var p :| p in Pairs(mappings) && p.1 == email;
    hide Pairs, Keyed, Synced, HasUser, RolesAdded, NamesGiven;
    SyncedIsSyncedWith(before, serverId, mappings);
    assert (p.0, email) in Pairs(mappings);
  }

  lemma ClashMakesDifference(before: Db, serverId: string, mappings: seq<Mapping>, e: string, f: string)
    returns (other: seq<Mapping>)
    requires Keyed(before) && e != f && NameAlone(before, serverId, e) == NameAlone(before, serverId, f)
    requires e in MissingEmails(before.users, serverId, mappings) && f in MissingEmails(before.users, serverId, mappings)
    ensures Rearranged(mappings, other)
    ensures !SameNames(Synced(before, serverId, mappings), Synced(before, serverId, other), serverId)
  {
    MissingHasNone(before, serverId, mappings, e);
    MissingHasNone(before, serverId, mappings, f);
    AskedIsThere(before, serverId, mappings, e);
    AskedIsThere(before, serverId, mappings, f);
    hide Synced, NameAlone, MissingEmails, Order, Rearranged, SameNames, HasUser, NameOf, Keyed;
    var a := CanComeFirst(before, serverId, mappings, e);
    var b := CanComeFirst(before, serverId, mappings, f);
    FirstGetsItsName(before, serverId, a);
    FirstGetsItsName(before, serverId, b);
    UsersOfRun(before, serverId, mappings);
    var run, name := Synced(before, serverId, mappings), NameAlone(before, serverId, e);
    if SameNames(run, Synced(before, serverId, a), serverId) {
      SameNamesSameNameOf(run, Synced(before, serverId, a), serverId, e, name);
      NamesDiffer(run, serverId, e, f, name);
      if SameNames(run, Synced(before, serverId, b), serverId) {
        SameNamesSameNameOf(run, Synced(before, serverId, b), serverId, f, name);
      }
      other := b;
    } else {
      other := a;
    }
  }

  lemma MissingHasNone(before: Db, serverId: string, mappings: seq<Mapping>, e: string)
    requires e in MissingEmails(before.users, serverId, mappings)
    ensures !HasUser(before.users, serverId, e)
  {
    hide Pairs, HasUser;
  }

  /** The names a run gives are the same for every order of the mappings and of their
      members exactly when no two of the people to be added would alone get one name. */
  lemma {:induction false} NamesAreDeterminedIff(before: Db, serverId: string, mappings: seq<Mapping>)
    requires Keyed(before)
    ensures NamesApart(before, serverId, mappings)
            <==> forall other :: Rearranged(mappings, other) ==>
                   SameNames(Synced(before, serverId, mappings), Synced(before, serverId, other), serverId)
  {
    hide Keyed, Synced, SameNames, Pairs, SyncedWith, NameAlone, MissingEmails, Rearranged;
    if NamesApart(before, serverId, mappings) {
      forall other | Rearranged(mappings, other)
        ensures SameNames(Synced(before, serverId, mappings), Synced(before, serverId, other), serverId)
      {
        RearrangedBack(mappings, other);
        RearrangedPairs(mappings, other);
        RearrangedPairs(other, mappings);
        SyncedIsSyncedWith(before, serverId, mappings);
        SyncedIsSyncedWith(before, serverId, other);
        ApartGivesSameNames(before, Synced(before, serverId, mappings), Synced(before, serverId, other), serverId, mappings, other);
      }
    } else {
      var e, f :| && e in MissingEmails(before.users, serverId, mappings) && f in MissingEmails(before.users, serverId, mappings)
                  && NameAlone(before, serverId, e) == NameAlone(before, serverId, f) && e != f;
      var other := ClashMakesDifference(before, serverId, mappings, e, f);
    }
  }

  lemma RearrangedBack(a: seq<Mapping>, b: seq<Mapping>)
    requires Rearranged(a, b)
    ensures Rearranged(b, a)
  {
  }

  // An example --------------------------------------------------------------------------

  const START: Db := Db(map[], map[], {}, 0)

  lemma StartIsKeyed()
    ensures Keyed(START)
  {
  }

  function OnlyMember(id: string, g: Gid, email: string): Mapping {
    Mapping(id, g, [Member(email, true, true)])
  }

  lemma SameDerivedName()
    ensures DeriveCommonNameFromEmail("a@x") == DeriveCommonNameFromEmail("a@y") == "a"
  {
    SplitHead("a", "x", '@');
    SplitHead("a", "y", '@');
    assert "a@x" == "a" + ['@'] + "x" && "a@y" == "a" + ['@'] + "y";
    assert NameCharsOnly("a") == "a" && Lower("a") == "a";
  }

  lemma AloneOnStart(serverId: string, email: string)
    ensures NameAlone(START, serverId, email) == DeriveCommonNameFromEmail(email)
  {
    hide DeriveCommonNameFromEmail;
    assert NamesOn(START.users, serverId) == {};
    assert FirstFreeName(DeriveCommonNameFromEmail(email), {}) == Suffixed(DeriveCommonNameFromEmail(email), 0);
  }

  lemma TwoInOrder(g: Gid, first: string, second: string, id1: string, id2: string)
    requires Lower(first) == first && Lower(second) == second
    ensures Order([OnlyMember(id1, g, first), OnlyMember(id2, g, second)]) == [(g, first), (g, second)]
  {
    hide Lower;
    var m1, m2 := OnlyMember(id1, g, first), OnlyMember(id2, g, second);
    assert m1.members[..0] == [] && EmailsIn(m1.members) == [first];
    assert m2.members[..0] == [] && EmailsIn(m2.members) == [second];
    assert [m1, m2][..1] == [m1] && [m1][..0] == [];
    assert Order([m1]) == [] + WithGroup(g, [first]);
  }

  lemma ExamplesAreLower()
    ensures Lower("a@x") == "a@x" && Lower("a@y") == "a@y"
  {
  }

  lemma SecondIsThere(serverId: string, mappings: seq<Mapping>, g: Gid, email: string)
    requires (g, email) in Pairs(mappings)
    ensures HasUser(Synced(START, serverId, mappings).users, serverId, email)
  {
    hide Pairs, Synced, HasUser, RolesAdded, NamesGiven;
    StartIsKeyed();
    hide Keyed;
    SyncedIsSyncedWith(START, serverId, mappings);
  }

  /** Two new people with one derived name, each listed by its own mapping of one group:
      whoever's mapping comes first is "a", and the other one is not. */
  lemma NamesDependOnOrder(serverId: string, g: Gid)
    ensures var (x, y) := (OnlyMember("m1", g, "a@x"), OnlyMember("m2", g, "a@y"));
            && NameOf(Synced(START, serverId, [x, y]), serverId, "a@x", "a")
            && NameOf(Synced(START, serverId, [y, x]), serverId, "a@y", "a")
            && !NameOf(Synced(START, serverId, [y, x]), serverId, "a@x", "a")
            && !SameNames(Synced(START, serverId, [x, y]), Synced(START, serverId, [y, x]), serverId)
  {
    var x, y := OnlyMember("m1", g, "a@x"), OnlyMember("m2", g, "a@y");
    ExamplesAreLower();
    SameDerivedName();
    AloneOnStart(serverId, "a@x");
    AloneOnStart(serverId, "a@y");
    TwoInOrder(g, "a@x", "a@y", "m1", "m2");
    TwoInOrder(g, "a@y", "a@x", "m2", "m1");
    StartIsKeyed();
    assert !HasUser(START.users, serverId, "a@x") && !HasUser(START.users, serverId, "a@y");
    hide Synced, NameAlone, Order, HasUser, NameOf, OnlyMember, SameNames, Keyed, Lower, DeriveCommonNameFromEmail;
    FirstGetsItsName(START, serverId, [x, y]);
    FirstGetsItsName(START, serverId, [y, x]);
    UsersOfRun(START, serverId, [y, x]);
    NamesDiffer(Synced(START, serverId, [y, x]), serverId, "a@y", "a@x", "a");
    OrderMeaning([y, x]);
    assert Order([y, x])[1] in ElementsOf(Order([y, x]));
    SecondIsThere(serverId, [y, x], g, "a@x");
    if SameNames(Synced(START, serverId, [x, y]), Synced(START, serverId, [y, x]), serverId) {
      SameNamesBack(Synced(START, serverId, [x, y]), Synced(START, serverId, [y, x]), serverId);
      SameNamesSameNameOf(Synced(START, serverId, [y, x]), Synced(START, serverId, [x, y]), serverId, "a@x", "a");
    }
  }

  lemma SameNamesBack(db1: Db, db2: Db, serverId: string)
    requires SameNames(db1, db2, serverId)
    ensures SameNames(db2, db1, serverId)
  {
  }
}
