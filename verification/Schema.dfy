/** The parts of the database schema that several modules work on. */
module Schema {

  type Id = nat

  /** The status of an access request. */
  datatype Status = Pending | Processing | Approved | Failed | Rejected | Expired

  datatype CertStatus = NoCert | Active | Revoked

  /** Where a group membership comes from. */
  datatype Source = Manual | GoogleSync

  datatype VpnUser = VpnUser(email: string, serverId: string, commonName: string, isEnabled: bool, certStatus: CertStatus)

  type Users = map<Id, VpnUser>

  /** The common names in use on a server. */
  function NamesOn(users: Users, serverId: string): set<string> {
    set u | u in users && users[u].serverId == serverId :: users[u].commonName
  }

  // The unique keys of the user table

  ghost predicate UniqueEmails(users: Users) {
    forall u, v ::
      u in users && v in users && users[u].email == users[v].email && users[u].serverId == users[v].serverId ==> u == v
  }

  ghost predicate UniqueNames(users: Users) {
    forall u, v ::
      u in users && v in users && users[u].commonName == users[v].commonName && users[u].serverId == users[v].serverId
      ==> u == v
  }
}
