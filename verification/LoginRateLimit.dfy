/** The login and MFA throttle: a failure counter per key with a fixed window
    and a lockout, consulted before every attempt. */
module LoginRateLimit {
  import opened Text

  // Configuration -----------------------------------------------------------

  datatype Scope = Email | Ip | MfaVerify

  datatype Limits = Limits(maxAttempts: int, windowMs: int, lockoutMs: int)

  const MINUTE_MS: int := 60 * 1000

  function LimitsOf(scope: Scope): Limits {
    match scope
    case Email => Limits(5, 15 * MINUTE_MS, 15 * MINUTE_MS)
    case Ip => Limits(20, 15 * MINUTE_MS, 15 * MINUTE_MS)
    case MfaVerify => Limits(5, 5 * MINUTE_MS, 15 * MINUTE_MS)
  }

  /** What the window arguments below rest on. */
  predicate Sane(l: Limits) {
    2 <= l.maxAttempts && 0 < l.windowMs <= l.lockoutMs
  }

  // Keys --------------------------------------------------------------------

  datatype Key = Key(scope: Scope, name: string)

  function NormalizeKey(value: string, fallback: string): string {
    var normalized := Lower(Trim(value));
    if |normalized| > 0 then normalized else fallback
  }

  function ScopeKey(scope: Scope, value: string): Key {
    Key(scope, NormalizeKey(value, if scope == Email then "unknown-email" else "unknown-ip"))
  }

  /** The row an MFA check or an MFA clear addresses: the identifier as given. */
  function MfaCheckKey(userId: string): Key {
    Key(MfaVerify, userId)
  }

  /** The row an MFA failure is written to: the identifier normalised. */
  function MfaRecordKey(userId: string): Key {
    ScopeKey(MfaVerify, userId)
  }

  lemma LowerKeepsTrimmed(s: string)
    requires Trimmed(s)
    ensures Trimmed(Lower(s)) && Lower(Lower(s)) == Lower(s)
  {
  }

  lemma NormalizeTwice(scope: Scope, value: string)
    ensures ScopeKey(scope, ScopeKey(scope, value).name) == ScopeKey(scope, value)
  {
    var t := Trim(value);
    TrimIsTrimmed(value);
    LowerKeepsTrimmed(t);
    TrimOfTrimmed(Lower(t));
    var unknown := if scope == Email then "unknown-email" else "unknown-ip";
    TrimOfTrimmed(unknown);
    assert Lower(unknown) == unknown;
  }

  // One row -----------------------------------------------------------------

  datatype Row = Row(failures: int, windowStart: int, lastAttemptAt: int, lockedUntil: Option<int>)

  predicate Locked(row: Option<Row>, now: int) {
    row.Some? && row.value.lockedUntil.Some? && row.value.lockedUntil.value > now
  }

  /** The row after one more recorded failure. */
  function AfterFailure(row: Option<Row>, l: Limits, now: int): Row {
    match row
    case None =>
      Row(1, now, now, if l.maxAttempts <= 1 then Some(now + l.lockoutMs) else None)
    case Some(r) =>
      var windowExpired := now - r.windowStart > l.windowMs;
      var lockoutExpired := r.lockedUntil.Some? && r.lockedUntil.value <= now;
      var failures := if windowExpired || lockoutExpired then 1 else r.failures + 1;
      Row(failures,
          if windowExpired || lockoutExpired then now else r.windowStart,
          now,
          if failures >= l.maxAttempts then Some(now + l.lockoutMs) else None)
  }

  // The table ---------------------------------------------------------------

  type Table = map<Key, Row>

  function FindRow(rows: Table, key: Key): Option<Row> {
    if key in rows then Some(rows[key]) else None
  }

  function Record(rows: Table, key: Key, now: int): Table {
    rows[key := AfterFailure(FindRow(rows, key), LimitsOf(key.scope), now)]
  }

  /** An absent or empty address takes no part in the throttle. */
  predicate Counted(ip: Option<string>) {
    ip.Some? && ip.value != ""
  }

  predicate LoginAdmitted(rows: Table, email: string, ip: Option<string>, now: int) {
    && !Locked(FindRow(rows, ScopeKey(Email, email)), now)
    && (Counted(ip) ==> !Locked(FindRow(rows, ScopeKey(Ip, ip.value)), now))
  }

  function LoginFailed(rows: Table, email: string, ip: Option<string>, now: int): Table {
    var byEmail := Record(rows, ScopeKey(Email, email), now);
    if Counted(ip) then Record(byEmail, ScopeKey(Ip, ip.value), now) else byEmail
  }

  function LoginKeys(email: string, ip: Option<string>): set<Key> {
    {ScopeKey(Email, email)} + if Counted(ip) then {ScopeKey(Ip, ip.value)} else {}
  }

  class AuthRateLimit {
    var rows: Table

    constructor ()
      ensures rows == map[]
    {
      rows := map[];
    }

    method CanAttemptLogin(email: string, ip: Option<string>, now: int) returns (admitted: bool)
      ensures admitted == LoginAdmitted(rows, email, ip, now)
    {
      var checks := [ScopeKey(Email, email)];
      if Counted(ip) {
        checks := checks + [ScopeKey(Ip, ip.value)];
      }
      admitted := true;
      for i := 0 to |checks|
        invariant admitted <==> forall j :: 0 <= j < i ==> !Locked(FindRow(rows, checks[j]), now)
      {
        if Locked(FindRow(rows, checks[i]), now) {
          admitted := false;
        }
      }
      assert checks[0] == ScopeKey(Email, email);
      assert Counted(ip) ==> checks[1] == ScopeKey(Ip, ip.value);
    }

    method UpsertFailure(scope: Scope, rawKey: string, now: int)
      modifies this
      ensures rows == Record(old(rows), ScopeKey(scope, rawKey), now)
    {
      var key := ScopeKey(scope, rawKey);
      var l := LimitsOf(scope);
      if key !in rows {
        rows := rows[key := Row(1, now, now, if l.maxAttempts <= 1 then Some(now + l.lockoutMs) else None)];
        return;
      }
      var record := rows[key];
      var restart := now - record.windowStart > l.windowMs
        || (record.lockedUntil.Some? && record.lockedUntil.value <= now);
      var nextFailures := if restart then 1 else record.failures + 1;
      var nextLockedUntil := if nextFailures >= l.maxAttempts then Some(now + l.lockoutMs) else None;
      rows := rows[key := Row(nextFailures, if restart then now else record.windowStart, now, nextLockedUntil)];
    }

    method RecordFailedLoginAttempt(email: string, ip: Option<string>, now: int)
      modifies this
      ensures rows == LoginFailed(old(rows), email, ip, now)
    {
      UpsertFailure(Email, email, now);
      if Counted(ip) {
        UpsertFailure(Ip, ip.value, now);
      }
    }

    method ClearFailedLoginAttempts(email: string, ip: Option<string>)
      modifies this
      ensures rows == old(rows) - LoginKeys(email, ip)
    {
      rows := rows - LoginKeys(email, ip);
    }

    method CanAttemptMfaVerify(userId: string, now: int) returns (admitted: bool)
      ensures admitted == !Locked(FindRow(rows, MfaCheckKey(userId)), now)
    {
      var record := FindRow(rows, MfaCheckKey(userId));
      admitted := record.None? || record.value.lockedUntil.None? || record.value.lockedUntil.value <= now;
    }

    method RecordFailedMfaAttempt(userId: string, now: int)
      modifies this
      ensures rows == Record(old(rows), MfaRecordKey(userId), now)
    {
      UpsertFailure(MfaVerify, userId, now);
    }

    method ClearMfaRateLimit(userId: string)
      modifies this
      ensures rows == old(rows) - {MfaCheckKey(userId)}
    {
      rows := rows - {MfaCheckKey(userId)};
    }

    /** Check, verify, then record or clear. The verification in the middle takes
        time, so the check and the record have their own clock readings. */
    method AuthorizeCredentialsSignIn(email: string, ip: Option<string>, checkedAt: int, recordedAt: int, valid: bool)
      returns (signedIn: bool)
      modifies this
      ensures rows == After(old(rows), SignIn(email, ip, checkedAt, recordedAt, valid))
      ensures signedIn <==> valid && LoginAdmitted(old(rows), email, ip, checkedAt)
    {
      var admitted := CanAttemptLogin(email, ip, checkedAt);
      if !admitted {
        return false;
      }
      if valid {
        ClearFailedLoginAttempts(email, ip);
        return true;
      }
      RecordFailedLoginAttempt(email, ip, recordedAt);
      return false;
    }

    /** What setting a new password, by its owner or an administrator, does here. */
    method ChangePassword(email: string, now: int)
      modifies this
      ensures rows == After(old(rows), PasswordChange(email, now, now))
    {
      ClearFailedLoginAttempts(email, None);
    }

    method VerifyMfa(userId: string, checkedAt: int, recordedAt: int, valid: bool) returns (verified: bool)
      modifies this
      ensures rows == After(old(rows), Mfa(userId, checkedAt, recordedAt, valid))
      ensures verified <==> valid && !Locked(FindRow(old(rows), MfaCheckKey(userId)), checkedAt)
    {
      var admitted := CanAttemptMfaVerify(userId, checkedAt);
      if !admitted {
        return false;
      }
      if valid {
        ClearMfaRateLimit(userId);
        return true;
      }
      RecordFailedMfaAttempt(userId, recordedAt);
      return false;
    }
  }

  // Runs --------------------------------------------------------------------

  datatype Event =
    | SignIn(email: string, ip: Option<string>, checkedAt: int, recordedAt: int, valid: bool)
    | Mfa(userId: string, checkedAt: int, recordedAt: int, valid: bool)
    | PasswordChange(email: string, checkedAt: int, recordedAt: int)

  predicate Admitted(rows: Table, e: Event) {
    match e
    case SignIn(email, ip, at, _, _) => LoginAdmitted(rows, email, ip, at)
    case Mfa(userId, at, _, _) => !Locked(FindRow(rows, MfaCheckKey(userId)), at)
    case PasswordChange(_, _, _) => true
  }

  /** A success, or a new password, whoever sets it: rows are cleared. */
  predicate Clears(e: Event) {
    e.PasswordChange? || e.valid
  }

  function ConsultedKeys(e: Event): set<Key> {
    match e
    case SignIn(email, ip, _, _, _) => LoginKeys(email, ip)
    case Mfa(userId, _, _, _) => {MfaCheckKey(userId)}
    case PasswordChange(_, _, _) => {}
  }

  function RecordedKeys(e: Event): set<Key> {
    match e
    case SignIn(email, ip, _, _, _) => LoginKeys(email, ip)
    case Mfa(userId, _, _, _) => {MfaRecordKey(userId)}
    case PasswordChange(_, _, _) => {}
  }

  function ClearedKeys(e: Event): set<Key> {
    match e
    case SignIn(email, ip, _, _, _) => LoginKeys(email, ip)
    case Mfa(userId, _, _, _) => {MfaCheckKey(userId)}
    case PasswordChange(email, _, _) => LoginKeys(email, None)
  }

  function After(rows: Table, e: Event): Table {
    if !Admitted(rows, e) then rows
    else if Clears(e) then rows - ClearedKeys(e)
    else match e
         case SignIn(email, ip, _, at, _) => LoginFailed(rows, email, ip, at)
         case Mfa(userId, _, at, _) => Record(rows, MfaRecordKey(userId), at)
         case PasswordChange(_, _, _) => rows
  }

  // What one event does to the table ----------------------------------------

  /** No row of that name is locked at that time. */
  predicate Unlocked(rows: Table, key: Key, at: int) {
    key in rows && rows[key].lockedUntil.Some? ==> rows[key].lockedUntil.value <= at
  }

  /** A sign-in attempt, row by row: refused without any change while the row of the
      e-mail, or of an address that is given, is locked; a success removes just these
      rows; a failure counts on just these rows. */
  lemma {:induction false} SignInMeans(rows: Table, email: string, ip: Option<string>, checkedAt: int, recordedAt: int, valid: bool)
    ensures var after := After(rows, SignIn(email, ip, checkedAt, recordedAt, valid));
            var mail := Key(Email, NormalizeKey(email, "unknown-email"));
            var given := ip.Some? && ip.value != "";
            var address := Key(Ip, NormalizeKey(if given then ip.value else "", "unknown-ip"));
            && (LoginAdmitted(rows, email, ip, checkedAt)
                <==> Unlocked(rows, mail, checkedAt) && (given ==> Unlocked(rows, address, checkedAt)))
            && (!LoginAdmitted(rows, email, ip, checkedAt) ==> after == rows)
            && (LoginAdmitted(rows, email, ip, checkedAt) && valid ==> mail !in after && (given ==> address !in after))
            && (LoginAdmitted(rows, email, ip, checkedAt) && !valid ==>
                  && mail in after && after[mail].lastAttemptAt == recordedAt
                  && (given ==> address in after && after[address].lastAttemptAt == recordedAt))
            && forall key :: key != mail && !(given && key == address) ==> FindRow(after, key) == FindRow(rows, key)
  {
    hide NormalizeKey;
  }

  /** An MFA attempt: it looks at, and on success removes, the row of the identifier as
      given; a failure counts on the row of the normalised one. */
  lemma {:induction false} MfaMeans(rows: Table, userId: string, checkedAt: int, recordedAt: int, valid: bool)
    ensures var after := After(rows, Mfa(userId, checkedAt, recordedAt, valid));
            var (checked, counted) := (Key(MfaVerify, userId), Key(MfaVerify, NormalizeKey(userId, "unknown-ip")));
            && (!Unlocked(rows, checked, checkedAt) ==> after == rows)
            && (Unlocked(rows, checked, checkedAt) && valid ==>
                  checked !in after && forall key :: key != checked ==> FindRow(after, key) == FindRow(rows, key))
            && (Unlocked(rows, checked, checkedAt) && !valid ==>
                  && counted in after && after[counted].lastAttemptAt == recordedAt
                  && forall key :: key != counted ==> FindRow(after, key) == FindRow(rows, key))
  {
    hide NormalizeKey;
  }

  /** A new password removes the row of the e-mail and nothing else. */
  lemma {:induction false} PasswordChangeMeans(rows: Table, email: string, checkedAt: int, recordedAt: int)
    ensures var after := After(rows, PasswordChange(email, checkedAt, recordedAt));
            var mail := Key(Email, NormalizeKey(email, "unknown-email"));
            mail !in after && forall key :: key != mail ==> FindRow(after, key) == FindRow(rows, key)
  {
    hide NormalizeKey;
  }

  /** Two spellings address one row exactly when they agree without case and outer
      blanks, or one is blank and the other spells its stand-in. */
  lemma SameKeyIff(scope: Scope, a: string, b: string)
    ensures var standIn := match scope case Email => "unknown-email" case Ip => "unknown-ip" case MfaVerify => "unknown-ip";
            ScopeKey(scope, a) == ScopeKey(scope, b)
            <==> || Lower(Trim(a)) == Lower(Trim(b))
                 || (Trim(a) == "" && Lower(Trim(b)) == standIn)
                 || (Trim(b) == "" && Lower(Trim(a)) == standIn)
  {
    hide Lower, Trim;
    LowerOfNothing(Trim(a));
    LowerOfNothing(Trim(b));
  }

  lemma LowerOfNothing(s: string)
    ensures Lower(s) == "" <==> s == ""
  {
  }

  function Run(events: seq<Event>): Table {
    if events == [] then map[] else After(Run(events[..|events| - 1]), events[|events| - 1])
  }

  /** The rows that an attempt with this e-mail and address, or a MFA attempt, is
      about, said of one key. */
  predicate IsLoginKey(key: Key, email: string, ip: Option<string>) {
    || key == Key(Email, NormalizeKey(email, "unknown-email"))
    || (ip.Some? && ip.value != "" && key == Key(Ip, NormalizeKey(ip.value, "unknown-ip")))
  }

  /** An admitted event after which the key has no failure on record. */
  predicate Forgives(e: Event, key: Key) {
    match e
    case SignIn(email, ip, _, _, valid) => valid && IsLoginKey(key, email, ip)
    case Mfa(userId, _, _, valid) => valid && key == Key(MfaVerify, userId)
    case PasswordChange(email, _, _) => IsLoginKey(key, email, None)
  }

  /** An admitted event that is a failure of the key. */
  predicate Charges(e: Event, key: Key) {
    match e
    case SignIn(email, ip, _, _, valid) => !valid && IsLoginKey(key, email, ip)
    case Mfa(userId, _, _, valid) => !valid && key == Key(MfaVerify, NormalizeKey(userId, "unknown-ip"))
    case PasswordChange(_, _, _) => false
  }

  /** When the failures of a key were recorded, since it was last forgiven. */
  function Failures(events: seq<Event>, key: Key): seq<int> {
    if events == [] then []
    else
      var before := events[..|events| - 1];
      var e := events[|events| - 1];
      if !Admitted(Run(before), e) then Failures(before, key)
      else if Forgives(e, key) then []
      else if Charges(e, key) then Failures(before, key) + [e.recordedAt]
      else Failures(before, key)
  }

  /** Clock readings never go back. */
  ghost predicate Timed(events: seq<Event>) {
    && (forall i :: 0 <= i < |events| ==> events[i].checkedAt <= events[i].recordedAt)
    && (forall i, j :: 0 <= i < j < |events| ==> events[i].recordedAt <= events[j].checkedAt)
  }

  /** Whoever records on this key has consulted this key. Always true of the
      login scopes. */
  predicate ConsultedBy(key: Key, e: Event) {
    key in RecordedKeys(e) ==> key in ConsultedKeys(e)
  }

  lemma LoginScopesAreConsulted(key: Key, e: Event)
    requires key.scope != MfaVerify
    ensures ConsultedBy(key, e)
  {
  }

  // A key by itself ---------------------------------------------------------

  /** The row that a list of recorded failures leaves behind. */
  function Replay(ts: seq<int>, l: Limits): Option<Row> {
    if ts == [] then None
    else Some(AfterFailure(Replay(ts[..|ts| - 1], l), l, ts[|ts| - 1]))
  }

  /** Times in order, and none recorded while the row was locked. */
  predicate Admissible(ts: seq<int>, l: Limits) {
    ts == [] ||
    (&& Admissible(ts[..|ts| - 1], l)
     && !Locked(Replay(ts[..|ts| - 1], l), ts[|ts| - 1])
     && (|ts| > 1 ==> ts[|ts| - 2] <= ts[|ts| - 1]))
  }

  /** What an attempt does to the row of one key. */
  lemma AfterAtKey(rows: Table, e: Event, key: Key)
    ensures FindRow(After(rows, e), key) ==
            if !Admitted(rows, e) then FindRow(rows, key)
            else if Forgives(e, key) then None
            else if Charges(e, key) then Some(AfterFailure(FindRow(rows, key), LimitsOf(key.scope), e.recordedAt))
            else FindRow(rows, key)
    ensures Charges(e, key) ==> key in RecordedKeys(e)
  {
    hide AfterFailure, Admitted, Locked, NormalizeKey;
  }

  lemma AdmittedIsNotLocked(rows: Table, e: Event, key: Key)
    requires Admitted(rows, e) && key in RecordedKeys(e) && ConsultedBy(key, e)
    ensures !Locked(FindRow(rows, key), e.checkedAt)
  {
    hide Locked;
  }

  lemma ReplayAppend(ts: seq<int>, l: Limits, at: int)
    ensures Replay(ts + [at], l) == Some(AfterFailure(Replay(ts, l), l, at))
    ensures Admissible(ts, l) && !Locked(Replay(ts, l), at) && (ts != [] ==> ts[|ts| - 1] <= at) ==> Admissible(ts + [at], l)
  {
    hide AfterFailure, Locked;
    assert (ts + [at])[..|ts|] == ts;
  }

  lemma NotLockedLater(row: Option<Row>, earlier: int, later: int)
    requires earlier <= later && !Locked(row, earlier)
    ensures !Locked(row, later)
  {
  }

  /** The last failure of a key is not in the future. */
  ghost predicate LastIsPast(ts: seq<int>, events: seq<Event>) {
    ts != [] ==> events != [] && ts[|ts| - 1] <= events[|events| - 1].recordedAt
  }

  lemma LastIsBefore(ts: seq<int>, events: seq<Event>)
    requires Timed(events) && events != [] && LastIsPast(ts, events[..|events| - 1])
    ensures events[|events| - 1].checkedAt <= events[|events| - 1].recordedAt
    ensures ts != [] ==> ts[|ts| - 1] <= events[|events| - 1].checkedAt
    ensures Timed(events[..|events| - 1])
  {
    if |events| > 1 {
      assert events[|events| - 2].recordedAt <= events[|events| - 1].checkedAt;
    }
  }

  /** A row is the replay of its own recorded failures, each of them admitted. */
  lemma {:induction false} RowIsReplay(events: seq<Event>, key: Key)
    requires Timed(events) && forall i :: 0 <= i < |events| ==> ConsultedBy(key, events[i])
    ensures FindRow(Run(events), key) == Replay(Failures(events, key), LimitsOf(key.scope))
    ensures Admissible(Failures(events, key), LimitsOf(key.scope))
    ensures LastIsPast(Failures(events, key), events)
  {
    hide After, Admitted, Forgives, Charges, RecordedKeys, ClearedKeys, ConsultedBy, AfterFailure, FindRow, LimitsOf, Timed,
         Locked;
    if events == [] {
      NoRow(key);
    } else {
      hide Replay, Admissible;
      var before := events[..|events| - 1];
      var e := events[|events| - 1];
      var ts := Failures(before, key);
      LastIsBefore([], events);
      RowIsReplay(before, key);
      LastIsBefore(ts, events);
      AfterAtKey(Run(before), e, key);
      if Admitted(Run(before), e) && !Forgives(e, key) && Charges(e, key) {
        AdmittedIsNotLocked(Run(before), e, key);
        NotLockedLater(FindRow(Run(before), key), e.checkedAt, e.recordedAt);
        ReplayAppend(ts, LimitsOf(key.scope), e.recordedAt);
      } else if Admitted(Run(before), e) && Forgives(e, key) {
        NoFailures(LimitsOf(key.scope));
      }
    }
  }

  lemma NoFailures(l: Limits)
    ensures Replay([], l) == None && Admissible([], l)
  {
  }

  lemma NoRow(key: Key)
    ensures FindRow(map[], key) == None
  {
  }

  lemma {:induction false} AdmissibleFacts(ts: seq<int>, l: Limits)
    requires Sane(l) && Admissible(ts, l)
    ensures forall i, j :: 0 <= i <= j < |ts| ==> ts[i] <= ts[j]
    ensures forall n :: 0 <= n <= |ts| ==> Admissible(ts[..n], l)
  {
    if ts != [] {
      var before := ts[..|ts| - 1];
      AdmissibleFacts(before, l);
      forall n | 0 <= n <= |ts| ensures Admissible(ts[..n], l) {
        if n == |ts| { assert ts[..n] == ts; } else { assert before[..n] == ts[..n]; }
      }
      assert forall i :: 0 <= i < |before| ==> before[i] == ts[i];
    }
  }

  /** The counter stays in 1..max, the window starts at the first failure it
      counts, and the lock is set exactly at the max-th failure. */
  lemma {:induction false} CounterMeaning(ts: seq<int>, l: Limits)
    requires Sane(l) && Admissible(ts, l) && ts != []
    ensures var r := Replay(ts, l).value;
            && 1 <= r.failures <= l.maxAttempts && r.failures <= |ts|
            && r.windowStart == ts[|ts| - r.failures]
            && r.lastAttemptAt == ts[|ts| - 1]
            && r.lockedUntil == (if r.failures == l.maxAttempts then Some(ts[|ts| - 1] + l.lockoutMs) else None)
  {
    if |ts| > 1 {
      CounterMeaning(ts[..|ts| - 1], l);
    }
  }

  /** A failure that starts a new count comes more than a window after the start
      of the previous count, or at least a lockout after its last failure. */
  lemma RestartGap(ts: seq<int>, l: Limits)
    requires Sane(l) && Admissible(ts, l) && |ts| > 1
    requires Replay(ts, l).value.failures == 1
    ensures var p := Replay(ts[..|ts| - 1], l).value;
            && 1 <= p.failures <= |ts| - 1
            && if p.failures == l.maxAttempts
               then ts[|ts| - 1] >= ts[|ts| - 2] + l.lockoutMs
               else ts[|ts| - 1] > ts[|ts| - 1 - p.failures] + l.windowMs
  {
    CounterMeaning(ts[..|ts| - 1], l);
  }

  /** The current count began at least a window after the failure max-1 places
      before its start. */
  lemma StartIsLate(ts: seq<int>, l: Limits)
    requires Sane(l) && Admissible(ts, l) && ts != []
    ensures var s := |ts| - Replay(ts, l).value.failures;
            0 <= s < |ts| && (s >= l.maxAttempts - 1 ==> ts[s] - ts[s - (l.maxAttempts - 1)] >= l.windowMs)
  {
    AdmissibleFacts(ts, l);
    CounterMeaning(ts, l);
    CountedFromOne(ts, l);
    var s := |ts| - Replay(ts, l).value.failures;
    if s >= l.maxAttempts - 1 {
      var head := ts[..s + 1];
      RestartGap(head, l);
      var p := Replay(head[..s], l).value;
      CounterMeaning(head[..s], l);
      assert head[s] == ts[s] && head[s - 1] == ts[s - 1] && head[s - p.failures] == ts[s - p.failures];
    }
  }

  /** Any 2*max-1 consecutive failures span at least a whole window. */
  lemma Spread(ts: seq<int>, l: Limits, i: int)
    requires Sane(l) && Admissible(ts, l)
    requires 0 <= i && i + 2 * l.maxAttempts - 2 < |ts|
    ensures ts[i + 2 * l.maxAttempts - 2] - ts[i] >= l.windowMs
  {
    AdmissibleFacts(ts, l);
    var head := ts[..i + 2 * l.maxAttempts - 1];
    StartIsLate(head, l);
    CounterMeaning(head, l);
    var s := |head| - Replay(head, l).value.failures;
    assert head[s] == ts[s] && head[s - (l.maxAttempts - 1)] == ts[s - (l.maxAttempts - 1)];
  }

  /** The counter was 1 where its window starts. */
  lemma {:induction false} CountedFromOne(ts: seq<int>, l: Limits)
    requires Sane(l) && Admissible(ts, l) && ts != []
    ensures 1 <= Replay(ts, l).value.failures <= |ts|
    ensures Replay(ts[..|ts| + 1 - Replay(ts, l).value.failures], l).value.failures == 1
  {
    CounterMeaning(ts, l);
    var f := Replay(ts, l).value.failures;
    if f == 1 {
      assert ts[..|ts|] == ts;
    } else {
      var before := ts[..|ts| - 1];
      CounterMeaning(before, l);
      CountedFromOne(before, l);
      assert before[..|before| + 1 - (f - 1)] == ts[..|ts| + 1 - f];
    }
  }

  // Counting ----------------------------------------------------------------

  /** The recorded failures that fall into the half-open interval [a, a + width). */
  function Within(ts: seq<int>, a: int, width: int): set<int> {
    set i | 0 <= i < |ts| && a <= ts[i] < a + width
  }

  lemma {:induction false} SizeInRange(s: set<int>, lo: int, n: nat)
    requires forall x :: x in s ==> lo <= x < lo + n
    ensures |s| <= n
  {
    if n == 0 {
      assert forall x :: x !in s;
    } else {
      SizeInRange(s - {lo + n - 1}, lo, n - 1);
    }
  }

  lemma {:induction false} WithinBound(ts: seq<int>, l: Limits, a: int)
    requires Sane(l) && Admissible(ts, l)
    ensures |Within(ts, a, l.windowMs)| <= 2 * l.maxAttempts - 2
  {
    AdmissibleFacts(ts, l);
    var hits := Within(ts, a, l.windowMs);
    if hits != {} {
      var m := First(ts, a, 0);
      forall i | i in hits ensures m <= i < m + 2 * l.maxAttempts - 2 {
        assert m <= i;
        if i >= m + 2 * l.maxAttempts - 2 {
          Spread(ts, l, m);
        }
      }
      SizeInRange(hits, m, 2 * l.maxAttempts - 2);
    }
  }

  /** The first index from `from` on whose time is at least `a`. */
  ghost function First(ts: seq<int>, a: int, from: nat): (m: nat)
    requires from <= |ts|
    ensures from <= m <= |ts|
    ensures forall i :: from <= i < m ==> ts[i] < a
    ensures m < |ts| ==> ts[m] >= a
    decreases |ts| - from
  {
    if from == |ts| || ts[from] >= a then from else First(ts, a, from + 1)
  }

  /** How many times the count has restarted. */
  function Restarts(ts: seq<int>, l: Limits): nat {
    if |ts| <= 1 then 0
    else Restarts(ts[..|ts| - 1], l) + if Replay(ts, l).value.failures == 1 then 1 else 0
  }

  lemma NoRestart(ts: seq<int>, l: Limits)
    requires |ts| > 1 && Replay(ts, l).value.failures != 1
    ensures Replay(ts, l).value.windowStart == Replay(ts[..|ts| - 1], l).value.windowStart
    ensures Replay(ts, l).value.failures == Replay(ts[..|ts| - 1], l).value.failures + 1
  {
  }

  lemma OneMore(m: int, q: int)
    ensures m * (q + 1) == m * q + m
  {
  }

  lemma {:induction false} RestartsTakeWindows(ts: seq<int>, l: Limits)
    requires Sane(l) && Admissible(ts, l) && ts != []
    ensures Replay(ts, l).value.windowStart >= ts[0] + l.windowMs * Restarts(ts, l)
    ensures |ts| <= l.maxAttempts * Restarts(ts, l) + Replay(ts, l).value.failures
  {
    AdmissibleFacts(ts, l);
    CounterMeaning(ts, l);
    if |ts| > 1 {
      var before := ts[..|ts| - 1];
      RestartsTakeWindows(before, l);
      CounterMeaning(before, l);
      hide Replay, AfterFailure;
      if Replay(ts, l).value.failures == 1 {
        RestartGap(ts, l);
        OneMore(l.windowMs, Restarts(before, l));
        OneMore(l.maxAttempts, Restarts(before, l));
      } else {
        NoRestart(ts, l);
      }
    } else {
      assert l.windowMs * 0 == 0 && l.maxAttempts * 0 == 0;
    }
  }

  lemma Monotone(m: int, a: int, b: int)
    requires 0 <= m && a <= b
    ensures m * a <= m * b
  {
  }

  lemma QuotientAtLeast(d: int, w: int, q: nat)
    requires w > 0 && d >= w * q
    ensures d / w >= q
  {
    var k := d / w;
    if k + 1 <= q {
      Monotone(w, k + 1, q);
    }
  }

  lemma CountingArithmetic(n: int, m: int, w: int, q: nat, f: int, d: int)
    requires m > 0 && w > 0 && f <= m
    requires n <= m * q + f && d >= w * q
    ensures n <= m * (d / w + 1)
  {
    QuotientAtLeast(d, w, q);
    Monotone(m, q + 1, d / w + 1);
  }

  /** A run of failures lasting D holds at most max * (D / window + 1) of them. */
  lemma TotalBound(ts: seq<int>, l: Limits)
    requires Sane(l) && Admissible(ts, l) && ts != []
    ensures |ts| <= l.maxAttempts * ((ts[|ts| - 1] - ts[0]) / l.windowMs + 1)
  {
    AdmissibleFacts(ts, l);
    CounterMeaning(ts, l);
    RestartsTakeWindows(ts, l);
    CountingArithmetic(|ts|, l.maxAttempts, l.windowMs, Restarts(ts, l),
                       Replay(ts, l).value.failures, ts[|ts| - 1] - ts[0]);
  }

  // The main results --------------------------------------------------------

  /** Sliding window: although only a fixed window is stored, no interval as long
      as the window ever holds more than 2*max-2 recorded failures of one key. */
  lemma {:induction false} SlidingWindow(events: seq<Event>, key: Key, a: int)
    requires Timed(events) && forall i :: 0 <= i < |events| ==> ConsultedBy(key, events[i])
    ensures var l := LimitsOf(key.scope);
            |Within(Failures(events, key), a, l.windowMs)| <= 2 * l.maxAttempts - 2
  {
    RowIsReplay(events, key);
    WithinBound(Failures(events, key), LimitsOf(key.scope), a);
  }

  /** The figures: 8 failures per e-mail and 38 per address in any 15 minutes. */
  lemma LoginFigures(events: seq<Event>, email: string, ip: string, a: int)
    requires Timed(events)
    ensures |Within(Failures(events, ScopeKey(Email, email)), a, 15 * 60 * 1000)| <= 8
    ensures |Within(Failures(events, ScopeKey(Ip, ip)), a, 15 * 60 * 1000)| <= 38
  {
    SlidingWindow(events, ScopeKey(Email, email), a);
    SlidingWindow(events, ScopeKey(Ip, ip), a);
  }

  /** Fixed window and lockout, over whole runs. */
  lemma {:induction false} ThrottleState(events: seq<Event>, key: Key)
    requires Timed(events) && forall i :: 0 <= i < |events| ==> ConsultedBy(key, events[i])
    requires key in Run(events)
    ensures var r := Run(events)[key];
            var l := LimitsOf(key.scope);
            var ts := Failures(events, key);
            && 1 <= r.failures <= l.maxAttempts
            && ts != [] && r.lastAttemptAt == ts[|ts| - 1]
            && (forall now :: Locked(Some(r), now) <==> r.failures == l.maxAttempts && now < r.lastAttemptAt + l.lockoutMs)
  {
    RowIsReplay(events, key);
    CounterMeaning(Failures(events, key), LimitsOf(key.scope));
  }

  /** The figures of the lockout: a row is locked by its fifth failure (its twentieth
      for an address), and for 15 minutes from its last one; a count starts anew 15
      minutes (5 for MFA) after it began. */
  lemma {:induction false} LockoutFigures(events: seq<Event>, key: Key, now: int)
    requires Timed(events) && forall i :: 0 <= i < |events| ==> ConsultedBy(key, events[i])
    requires key in Run(events)
    ensures var r := Run(events)[key];
            var (most, windowMs) := match key.scope
              case Email => (5, 15 * 60 * 1000)
              case Ip => (20, 15 * 60 * 1000)
              case MfaVerify => (5, 5 * 60 * 1000);
            && (Locked(Some(r), now) <==> r.failures == most && now < r.lastAttemptAt + 15 * 60 * 1000)
            && (!Locked(Some(r), now) ==>
                  AfterFailure(Some(r), LimitsOf(key.scope), now).failures
                  == if r.failures == most || now - r.windowStart > windowMs then 1 else r.failures + 1)
  {
    hide Run, Timed, ConsultedBy;
    ThrottleState(events, key);
    RowIsReplay(events, key);
    CounterMeaning(Failures(events, key), LimitsOf(key.scope));
  }

  /** A run of D milliseconds records at most max * (D / window + 1) failures. */
  lemma {:induction false} RunTotal(events: seq<Event>, key: Key)
    requires Timed(events) && forall i :: 0 <= i < |events| ==> ConsultedBy(key, events[i])
    requires Failures(events, key) != []
    ensures var l := LimitsOf(key.scope);
            var ts := Failures(events, key);
            |ts| <= l.maxAttempts * ((ts[|ts| - 1] - ts[0]) / l.windowMs + 1)
  {
    RowIsReplay(events, key);
    TotalBound(Failures(events, key), LimitsOf(key.scope));
  }

  // MFA identifiers ---------------------------------------------------------

  predicate Normal(userId: string) {
    MfaCheckKey(userId) == MfaRecordKey(userId)
  }

  /** 8 failures in any 5 minutes, when identifiers are trimmed lower case. */
  lemma {:induction false} MfaFigures(events: seq<Event>, userId: string, a: int)
    requires Timed(events) && forall i :: 0 <= i < |events| && events[i].Mfa? ==> Normal(events[i].userId)
    ensures |Within(Failures(events, MfaCheckKey(userId)), a, 5 * 60 * 1000)| <= 8
  {
    SlidingWindow(events, MfaCheckKey(userId), a);
  }

  /** A row is only ever written under a normalised name. */
  lemma {:induction false} RowsAreNormal(events: seq<Event>, userId: string)
    requires MfaCheckKey(userId) in Run(events)
    ensures Normal(userId)
  {
    if events != [] {
      var before := events[..|events| - 1];
      var e := events[|events| - 1];
      if MfaCheckKey(userId) in Run(before) {
        RowsAreNormal(before, userId);
      } else {
        assert e.Mfa? && MfaCheckKey(userId) == MfaRecordKey(e.userId);
        NormalizeTwice(MfaVerify, e.userId);
      }
    }
  }

  function RepeatedMfaFailures(userId: string, n: nat): seq<Event> {
    seq(n, _ => Mfa(userId, 0, 0, false))
  }

  /** Five failures at one instant lock out a normal identifier. */
  lemma {:induction false} RepeatedFailures(userId: string, n: nat)
    requires Normal(userId) && 1 <= n <= 5
    ensures Timed(RepeatedMfaFailures(userId, n))
    ensures FindRow(Run(RepeatedMfaFailures(userId, n)), MfaCheckKey(userId))
            == Some(Row(n, 0, 0, if n == 5 then Some(15 * MINUTE_MS) else None))
  {
    var events := RepeatedMfaFailures(userId, n);
    assert events[..n - 1] == RepeatedMfaFailures(userId, n - 1);
    if n > 1 {
      RepeatedFailures(userId, n - 1);
    } else {
      assert events[..0] == [];
    }
  }

  /** The MFA throttle can ever refuse a user exactly when the identifier is its
      own normal form: the check reads the identifier as given, the record is
      written under the normalised one. */
  lemma MfaThrottleWorksIffNormal(userId: string)
    ensures (exists events, now :: Timed(events) && Locked(FindRow(Run(events), MfaCheckKey(userId)), now))
            <==> Normal(userId)
  {
    if Normal(userId) {
      RepeatedFailures(userId, 5);
      assert Locked(FindRow(Run(RepeatedMfaFailures(userId, 5)), MfaCheckKey(userId)), 0);
    }
    if events, now :| Timed(events) && Locked(FindRow(Run(events), MfaCheckKey(userId)), now) {
      RowsAreNormal(events, userId);
    }
  }

  predicate IsCapital(c: char) {
    'A' <= c <= 'Z'
  }

  lemma LowerHasNoCapital(s: string)
    ensures forall c :: c in Lower(s) ==> !IsCapital(c)
  {
  }

  /** So an identifier with a capital letter is never refused. */
  lemma {:induction false} CapitalIdentifierIsNeverRefused(userId: string, c: char, events: seq<Event>, now: int)
    requires c in userId && IsCapital(c)
    ensures !Locked(FindRow(Run(events), MfaCheckKey(userId)), now)
  {
    hide Run;
    LowerHasNoCapital(Trim(userId));
    assert !Normal(userId);
    if MfaCheckKey(userId) in Run(events) {
      RowsAreNormal(events, userId);
    }
  }

  // Lockout -----------------------------------------------------------------

  /** A password change that clears the row. */
  predicate Resets(e: Event, key: Key) {
    e.PasswordChange? && Forgives(e, key)
  }

  /** A locked row stays as it is until the lockout is over or a password changes. */
  lemma {:induction false} LockedRowStays(events: seq<Event>, key: Key, i: nat, j: nat)
    requires Timed(events) && forall n :: 0 <= n < |events| ==> ConsultedBy(key, events[n])
    requires i <= j < |events| && key in Run(events[..i])
    requires forall n :: i <= n < j ==> !Resets(events[n], key)
    requires Locked(Some(Run(events[..i])[key]), events[j].checkedAt)
    ensures FindRow(Run(events[..j]), key) == Some(Run(events[..i])[key])
    decreases j
  {
    hide After, Admitted, Forgives, Charges, RecordedKeys, ClearedKeys, ConsultedKeys, Resets, AfterFailure, Run, Timed, Locked,
         LimitsOf;
    if i == j {
      FoundRow(Run(events[..i]), key);
    } else {
      EarlierCheck(events, j - 1, j);
      LockedEarlier(Run(events[..i])[key], events[j - 1].checkedAt, events[j].checkedAt);
      LockedRowStays(events, key, i, j - 1);
      RunStep(events, j - 1);
      AfterAtKey(Run(events[..j - 1]), events[j - 1], key);
      assert ConsultedBy(key, events[j - 1]);
      if Forgives(events[j - 1], key) {
        ForgivenIsConsulted(events[j - 1], key);
      }
      if key in ConsultedKeys(events[j - 1]) {
        LockedIsRefused(Run(events[..j - 1]), events[j - 1], key);
      }
    }
  }

  lemma ForgivenIsConsulted(e: Event, key: Key)
    requires Forgives(e, key) && !Resets(e, key)
    ensures key in ConsultedKeys(e)
  {
  }

  lemma FoundRow(rows: Table, key: Key)
    requires key in rows
    ensures FindRow(rows, key) == Some(rows[key])
  {
  }

  lemma EarlierCheck(events: seq<Event>, i: nat, j: nat)
    requires Timed(events) && i < j < |events|
    ensures events[i].checkedAt <= events[j].checkedAt
  {
    assert events[i].checkedAt <= events[i].recordedAt;
  }

  lemma LockedEarlier(row: Row, earlier: int, later: int)
    requires earlier <= later && Locked(Some(row), later)
    ensures Locked(Some(row), earlier)
  {
  }

  lemma RunStep(events: seq<Event>, i: nat)
    requires i < |events|
    ensures Run(events[..i + 1]) == After(Run(events[..i]), events[i])
  {
    assert events[..i + 1][..i] == events[..i];
  }

  lemma LockedIsRefused(rows: Table, e: Event, key: Key)
    requires key in ConsultedKeys(e) && Locked(FindRow(rows, key), e.checkedAt)
    ensures !Admitted(rows, e)
  {
    hide Locked;
  }

  lemma NoneResets(events: seq<Event>, key: Key, i: nat, j: nat)
    requires i <= j <= |events|
    ensures key.scope != Email ==> forall n :: i <= n < j ==> !Resets(events[n], key)
  {
  }

  /** Lockout, over whole runs: once the counter of a key is at max, no attempt that
      consults the key is admitted until the lockout after the last failure is over,
      unless a password change has cleared the row in between. That clears rows of
      e-mails only: lockouts of addresses and MFA identifiers hold without exception. */
  lemma {:induction false} NothingAdmittedInLockout(events: seq<Event>, key: Key, i: nat, j: nat)
    requires Timed(events) && forall n :: 0 <= n < |events| ==> ConsultedBy(key, events[n])
    requires i <= j < |events| && key in Run(events[..i]) && key in ConsultedKeys(events[j])
    requires Run(events[..i])[key].failures == LimitsOf(key.scope).maxAttempts
    requires events[j].checkedAt < Run(events[..i])[key].lastAttemptAt + LimitsOf(key.scope).lockoutMs
    ensures !Admitted(Run(events[..j]), events[j]) || exists n :: i <= n < j && Resets(events[n], key)
    ensures key.scope != Email ==> !Admitted(Run(events[..j]), events[j])
  {
    hide Run, Admitted, ConsultedKeys, LimitsOf, Resets;
    ThrottleState(events[..i], key);
    NoneResets(events, key, i, j);
    if forall n :: i <= n < j ==> !Resets(events[n], key) {
      LockedRowStays(events, key, i, j);
      LockedIsRefused(Run(events[..j]), events[j], key);
    }
  }

  // The sliding bound is attained -------------------------------------------

  /** One failure, then max-2 at the end of its window, then max just after. */
  function TightTime(l: Limits, i: nat): int {
    if i == 0 then 0 else if i < l.maxAttempts - 1 then l.windowMs else l.windowMs + 1
  }

  function TightTimes(l: Limits, n: nat): (ts: seq<int>)
    ensures |ts| == n && forall i :: 0 <= i < n ==> ts[i] == TightTime(l, i)
  {
    seq(n, i requires 0 <= i < n => TightTime(l, i))
  }

  lemma {:induction false} TightIsAdmissible(l: Limits, n: nat)
    requires Sane(l) && n <= 2 * l.maxAttempts - 1
    ensures Admissible(TightTimes(l, n), l)
    ensures n > 0 ==> Replay(TightTimes(l, n), l) == Some(
              var start := if n < l.maxAttempts then 0 else l.maxAttempts - 1;
              Row(n - start, TightTime(l, start), TightTime(l, n - 1),
                  if n - start == l.maxAttempts then Some(TightTime(l, n - 1) + l.lockoutMs) else None))
  {
    hide Replay, Admissible;
    NoFailures(l);
    if n > 0 {
      TightIsAdmissible(l, n - 1);
      ReplayAppend(TightTimes(l, n - 1), l, TightTime(l, n - 1));
      assert TightTimes(l, n) == TightTimes(l, n - 1) + [TightTime(l, n - 1)];
    } else {
      assert TightTimes(l, n) == [];
    }
  }

  /** A key as it stands in the table, with a name that takes part in the throttle. */
  predicate Regular(key: Key) {
    key.name != "" && ScopeKey(key.scope, key.name) == key
  }

  /** A failed attempt on a key; attempts from one address use different e-mails. */
  function AttemptOn(key: Key, i: nat, at: int): Event {
    match key.scope
    case Email => SignIn(key.name, None, at, at, false)
    case Ip => SignIn(Decimal(i), Some(key.name), at, at, false)
    case MfaVerify => Mfa(key.name, at, at, false)
  }

  function TightRun(key: Key, n: nat): (events: seq<Event>)
    ensures |events| == n
    ensures forall i :: 0 <= i < n ==> events[i] == AttemptOn(key, i, TightTime(LimitsOf(key.scope), i))
  {
    seq(n, i requires 0 <= i < n => AttemptOn(key, i, TightTime(LimitsOf(key.scope), i)))
  }

  lemma DecimalIsNormal(i: nat)
    ensures ScopeKey(Email, Decimal(i)) == Key(Email, Decimal(i))
  {
    var d := Decimal(i);
    assert forall k :: 0 <= k < |d| ==> IsDigit(d[k]);
    TrimOfTrimmed(d);
    assert Lower(d) == d;
  }

  lemma AttemptKeys(key: Key, i: nat, at: int)
    requires Regular(key)
    ensures RecordedKeys(AttemptOn(key, i, at)) == ConsultedKeys(AttemptOn(key, i, at))
            == {key} + if key.scope == Ip then {Key(Email, Decimal(i))} else {}
    ensures AttemptOn(key, i, at).checkedAt == AttemptOn(key, i, at).recordedAt == at
    ensures Charges(AttemptOn(key, i, at), key) && !Forgives(AttemptOn(key, i, at), key)
  {
    hide Decimal;
    DecimalIsNormal(i);
  }

  lemma {:induction false} UntouchedKey(events: seq<Event>, key: Key)
    requires forall i :: 0 <= i < |events| ==> key !in RecordedKeys(events[i])
    ensures key !in Run(events)
  {
    hide Admitted, Clears, RecordedKeys, ClearedKeys, After, AfterFailure;
    if events != [] {
      UntouchedKey(events[..|events| - 1], key);
      AfterAtKey(Run(events[..|events| - 1]), events[|events| - 1], key);
    }
  }

  /** Admission looks at the rows of the consulted keys only. */
  lemma AdmittedIfNoneLocked(rows: Table, e: Event)
    requires forall key :: key in ConsultedKeys(e) ==> !Locked(FindRow(rows, key), e.checkedAt)
    ensures Admitted(rows, e)
  {
    hide Locked, ScopeKey;
  }

  lemma TightRunIsTimed(key: Key, n: nat)
    requires Regular(key)
    ensures Timed(TightRun(key, n)) && forall i :: 0 <= i < n ==> ConsultedBy(key, TightRun(key, n)[i])
  {
    hide AttemptOn, RecordedKeys, ConsultedKeys, Regular, LimitsOf;
    var l := LimitsOf(key.scope);
    assert l.windowMs > 0 by {
      LimitsAreSane(key.scope);
    }
    forall i | 0 <= i < n
      ensures TightRun(key, n)[i].checkedAt == TightRun(key, n)[i].recordedAt == TightTime(l, i)
      ensures ConsultedBy(key, TightRun(key, n)[i])
    {
      AttemptKeys(key, i, TightTime(l, i));
    }
  }

  lemma LimitsAreSane(scope: Scope)
    ensures Sane(LimitsOf(scope)) && LimitsOf(scope).windowMs >= 2
  {
  }

  /** Every attempt of the tight run is admitted and recorded. */
  lemma {:induction false} TightRunFails(key: Key, n: nat)
    requires Regular(key) && n <= 2 * LimitsOf(key.scope).maxAttempts - 1
    ensures Failures(TightRun(key, n), key) == TightTimes(LimitsOf(key.scope), n)
  {
    hide AttemptOn, RecordedKeys, ConsultedKeys, Charges, Forgives, Admitted, After, Regular, LimitsOf, AfterFailure, TightTime, Locked;
    if n > 0 {
      var l := LimitsOf(key.scope);
      var events, before := TightRun(key, n), TightRun(key, n - 1);
      var e := events[n - 1];
      assert events[..n - 1] == before;
      TightRunFails(key, n - 1);
      TightAttemptAdmitted(key, n - 1);
      AttemptKeys(key, n - 1, TightTime(l, n - 1));
      assert TightTimes(l, n) == TightTimes(l, n - 1) + [TightTime(l, n - 1)];
    }
  }

  lemma TightAttemptAdmitted(key: Key, n: nat)
    requires Regular(key) && n < 2 * LimitsOf(key.scope).maxAttempts - 1
    requires Failures(TightRun(key, n), key) == TightTimes(LimitsOf(key.scope), n)
    ensures Admitted(Run(TightRun(key, n)), AttemptOn(key, n, TightTime(LimitsOf(key.scope), n)))
  {
    hide AttemptOn, RecordedKeys, ConsultedKeys, Admitted, After, Run, Failures, Regular, LimitsOf, AfterFailure, TightTime;
    var l := LimitsOf(key.scope);
    var at := TightTime(l, n);
    var rows := Run(TightRun(key, n));
    LimitsAreSane(key.scope);
    TightRunIsTimed(key, n);
    RowIsReplay(TightRun(key, n), key);
    TightIsAdmissible(l, n + 1);
    assert TightTimes(l, n + 1)[..n] == TightTimes(l, n);
    assert !Locked(FindRow(rows, key), at);
    AttemptKeys(key, n, at);
    if key.scope == Ip {
      forall i | 0 <= i < n ensures Key(Email, Decimal(n)) !in RecordedKeys(TightRun(key, n)[i]) {
        AttemptKeys(key, i, TightTime(l, i));
        if Decimal(i) == Decimal(n) {
          DecimalIsInjective(i, n);
        }
      }
      UntouchedKey(TightRun(key, n), Key(Email, Decimal(n)));
      assert !Locked(FindRow(rows, Key(Email, Decimal(n))), at);
    }
    AdmittedIfNoneLocked(rows, AttemptOn(key, n, at));
  }

  ghost function Range(lo: int, n: nat): (r: set<int>)
    ensures |r| == n && forall i :: i in r <==> lo <= i < lo + n
  {
    if n == 0 then {} else Range(lo, n - 1) + {lo + n - 1}
  }

  /** The sliding bound is tight for every key of every scope: a run of attempts, all
      of them recorded, with 2*max-2 failures in one window. */
  lemma {:induction false} SlidingBoundIsAttained(key: Key)
    requires Regular(key)
    ensures var l := LimitsOf(key.scope);
            var events := TightRun(key, 2 * l.maxAttempts - 1);
            && Timed(events) && (forall i :: 0 <= i < |events| ==> ConsultedBy(key, events[i]))
            && |Within(Failures(events, key), l.windowMs, l.windowMs)| == 2 * l.maxAttempts - 2
  {
    hide AttemptOn, Regular, LimitsOf, Failures, Timed, ConsultedBy;
    var l := LimitsOf(key.scope);
    var n := 2 * l.maxAttempts - 1;
    LimitsAreSane(key.scope);
    TightRunIsTimed(key, n);
    TightRunFails(key, n);
    assert Within(TightTimes(l, n), l.windowMs, l.windowMs) == Range(1, n - 1);
  }
}
