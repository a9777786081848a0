/** TOTP codes are one-time: finding the matching time step, and the conditional
    update that accepts it, also when calls interleave between the two. */
module TotpVerification {
  import opened Text

  const TOTP_PERIOD_SECONDS: int := 30

  /** The time step of a timestamp in milliseconds. */
  function TotpStep(timestamp: int): int {
    timestamp / (1000 * TOTP_PERIOD_SECONDS)
  }

  /** The code of a secret at a timestamp; None when generating it throws (a secret
      that is not base32, a time before the epoch). The HMAC inside is a parameter. */
  type CodeAt = (string, int) -> Option<string>

  // Finding the step --------------------------------------------------------

  datatype FindResult = Found(step: int) | NotFound | Threw

  predicate SixDigits(s: string) {
    |s| == 6 && forall i :: 0 <= i < 6 ==> '0' <= s[i] <= '9'
  }

  function CodeOfStep(codeAt: CodeAt, secret: string, step: int): Option<string> {
    codeAt(secret, step * TOTP_PERIOD_SECONDS * 1000)
  }

  /** The first step in from..last whose code is the candidate. */
  function FindFrom(codeAt: CodeAt, secret: string, candidate: string, from: int, last: int): FindResult
    decreases last - from
  {
    if from > last then NotFound
    else match CodeOfStep(codeAt, secret, from)
         case None => Threw
         case Some(expected) =>
           if candidate == expected then Found(from)
           else FindFrom(codeAt, secret, candidate, from + 1, last)
  }

  function FindStep(codeAt: CodeAt, secret: string, code: string, window: int, timestamp: int): FindResult {
    if !SixDigits(Trim(code)) then NotFound
    else FindFrom(codeAt, secret, Trim(code), TotpStep(timestamp) - window, TotpStep(timestamp) + window)
  }

  method FindValidTotpStep(codeAt: CodeAt, secret: string, code: string, window: int, timestamp: int)
    returns (r: FindResult)
    ensures r == FindStep(codeAt, secret, code, window, timestamp)
  {
    var candidate := Trim(code);
    if !SixDigits(candidate) {
      return NotFound;
    }
    var baseStep := TotpStep(timestamp);
    var offset := -window;
    while offset <= window
      invariant FindFrom(codeAt, secret, candidate, baseStep - window, baseStep + window)
             == FindFrom(codeAt, secret, candidate, baseStep + offset, baseStep + window)
      decreases window - offset
    {
      var step := baseStep + offset;
      var expected := codeAt(secret, step * TOTP_PERIOD_SECONDS * 1000);
      if expected.None? {
        return Threw;
      }
      if candidate == expected.value {
        return Found(step);
      }
      offset := offset + 1;
    }
    return NotFound;
  }

  /** A found step lies in the window and is the first there to have the code; if
      none is found, no step in the window has it. */
  lemma {:induction false} FindFromMeaning(codeAt: CodeAt, secret: string, candidate: string, from: int, last: int)
    ensures match FindFrom(codeAt, secret, candidate, from, last)
            case Found(step) =>
              && from <= step <= last
              && CodeOfStep(codeAt, secret, step) == Some(candidate)
              && forall s :: from <= s < step ==> CodeOfStep(codeAt, secret, s) != Some(candidate)
            case NotFound =>
              forall s :: from <= s <= last ==> CodeOfStep(codeAt, secret, s) != Some(candidate)
            case Threw =>
              exists s :: from <= s <= last && CodeOfStep(codeAt, secret, s) == None
    decreases last - from
  {
    if from <= last && CodeOfStep(codeAt, secret, from).Some? {
      FindFromMeaning(codeAt, secret, candidate, from + 1, last);
    }
  }

  predicate HasCode(codeAt: CodeAt, secret: string, code: string, step: int) {
    codeAt(secret, step * 30000) == Some(Trim(code))
  }

  predicate Throws(codeAt: CodeAt, secret: string, step: int) {
    codeAt(secret, step * 30000) == None
  }

  /** The whole search: the step is the earliest one, among the `window` steps before
      the current half minute, that one, and the `window` steps after it, whose code is
      the trimmed input of six digits; a step that throws ends the search. */
  lemma {:induction false} FindStepMeaning(codeAt: CodeAt, secret: string, code: string, window: int, timestamp: int, current: int)
    requires 30000 * current <= timestamp < 30000 * (current + 1)
    ensures var t := Trim(code);
            var digits := |t| == 6 && forall i :: 0 <= i < 6 ==> '0' <= t[i] <= '9';
            match FindStep(codeAt, secret, code, window, timestamp)
            case Found(step) =>
              && digits && current - window <= step <= current + window && HasCode(codeAt, secret, code, step)
              && forall s :: current - window <= s < step ==> !HasCode(codeAt, secret, code, s) && !Throws(codeAt, secret, s)
            case NotFound =>
              digits ==> forall s :: current - window <= s <= current + window
                                     ==> !HasCode(codeAt, secret, code, s) && !Throws(codeAt, secret, s)
            case Threw =>
              digits && exists s :: current - window <= s <= current + window && Throws(codeAt, secret, s)
                                    && forall e :: current - window <= e < s ==> !HasCode(codeAt, secret, code, e)
  {
    hide FindFrom, Trim;
    StepOfTimestamp(timestamp, current);
    FindFromIsSearch(codeAt, secret, code, current - window, current + window);
  }

  lemma StepOfTimestamp(timestamp: int, current: int)
    requires 30000 * current <= timestamp < 30000 * (current + 1)
    ensures TotpStep(timestamp) == current
  {
  }

  lemma {:induction false} FindFromIsSearch(codeAt: CodeAt, secret: string, code: string, from: int, last: int)
    ensures match FindFrom(codeAt, secret, Trim(code), from, last)
            case Found(step) =>
              && from <= step <= last && HasCode(codeAt, secret, code, step)
              && forall s :: from <= s < step ==> !HasCode(codeAt, secret, code, s) && !Throws(codeAt, secret, s)
            case NotFound =>
              forall s :: from <= s <= last ==> !HasCode(codeAt, secret, code, s) && !Throws(codeAt, secret, s)
            case Threw =>
              exists s :: from <= s <= last && Throws(codeAt, secret, s)
                          && forall e :: from <= e < s ==> !HasCode(codeAt, secret, code, e)
    decreases last - from
  {
    hide Trim;
    if from <= last {
      assert CodeOfStep(codeAt, secret, from) == codeAt(secret, from * 30000);
      if CodeOfStep(codeAt, secret, from).None? {
        assert Throws(codeAt, secret, from);
      } else if CodeOfStep(codeAt, secret, from) != Some(Trim(code)) {
        FindFromIsSearch(codeAt, secret, code, from + 1, last);
      }
    }
  }

  // The conditional update --------------------------------------------------

  datatype Row = Row(lastHash: Option<string>, lastStep: Option<int>)

  type Table = map<string, Row>

  /** The where clause of the update. */
  predicate Fresh(row: Row, hash: string, step: int) {
    row.lastHash.None? || row.lastStep.None? || row.lastHash.value != hash || row.lastStep.value < step
  }

  predicate Accepts(rows: Table, userId: string, hash: string, step: int) {
    userId in rows && Fresh(rows[userId], hash, step)
  }

  function Accept(rows: Table, userId: string, hash: string, step: int): Table {
    if Accepts(rows, userId, hash, step) then rows[userId := Row(Some(hash), Some(step))] else rows
  }

  datatype Outcome = Success(step: int) | Invalid | Replayed | Error

  class AdminUsers {
    var rows: Table

    constructor (rows: Table)
      ensures this.rows == rows
    {
      this.rows := rows;
    }

    method UpdateMany(userId: string, hash: string, step: int) returns (count: nat)
      modifies this
      ensures rows == Accept(old(rows), userId, hash, step)
      ensures count == if Accepts(old(rows), userId, hash, step) then 1 else 0
    {
      count := 0;
      if userId in rows {
        var row := rows[userId];
        if row.lastHash.None? || row.lastStep.None? || row.lastHash.value != hash || row.lastStep.value < step {
          rows := rows[userId := Row(Some(hash), Some(step))];
          count := 1;
        }
      }
    }

    method ConsumeTotpCode(codeAt: CodeAt, hashOf: string -> string, userId: string, secret: string, code: string,
                           window: int, timestamp: int)
      returns (r: Outcome)
      modifies this
      ensures match FindStep(codeAt, secret, code, window, timestamp)
              case Found(step) =>
                && rows == Accept(old(rows), userId, hashOf(secret), step)
                && r == if Accepts(old(rows), userId, hashOf(secret), step) then Success(step) else Replayed
              case NotFound => rows == old(rows) && r == Invalid
              case Threw => rows == old(rows) && r == Error
    {
      var matched := FindValidTotpStep(codeAt, secret, code, window, timestamp);
      match matched
      case NotFound => return Invalid;
      case Threw => return Error;
      case Found(step) =>
        var count := UpdateMany(userId, hashOf(secret), step);
        if count == 0 {
          return Replayed;
        }
        return Success(step);
    }
  }

  // Interleaved calls -------------------------------------------------------

  datatype Call = Call(userId: string, secret: string, code: string, window: int, timestamp: int)

  /** One step of some call, or of the reset that clears a user's last code. Any
      number of calls may be between their two steps. */
  datatype Event =
    | Find(id: nat, call: Call)
    | Update(id: nat)
    | Clear(userId: string)

  /** A call that has found its step and not yet tried its update. */
  datatype Matched = Matched(call: Call, step: int)

  datatype State = State(rows: Table, waiting: map<nat, Matched>)

  datatype World = World(codeAt: CodeAt, hashOf: string -> string)

  function After(w: World, s: State, e: Event): State {
    match e
    case Find(id, c) =>
      (match FindStep(w.codeAt, c.secret, c.code, c.window, c.timestamp)
       case Found(step) => s.(waiting := s.waiting[id := Matched(c, step)])
       case _ => s.(waiting := s.waiting - {id}))
    case Update(id) =>
      if id in s.waiting then
        var m := s.waiting[id];
        State(Accept(s.rows, m.call.userId, w.hashOf(m.call.secret), m.step), s.waiting - {id})
      else s
    case Clear(userId) =>
      if userId in s.rows then s.(rows := s.rows[userId := Row(None, None)]) else s
  }

  function Run(w: World, rows: Table, events: seq<Event>): State {
    if events == [] then State(rows, map[])
    else After(w, Run(w, rows, events[..|events| - 1]), events[|events| - 1])
  }

  /** Only a call whose search has found a step goes on to its update. */
  lemma FindDecides(w: World, s: State, id: nat, c: Call)
    ensures var r := FindStep(w.codeAt, c.secret, c.code, c.window, c.timestamp);
            var t := After(w, s, Find(id, c));
            && t.rows == s.rows
            && (id in t.waiting <==> r.Found?)
            && (r.Found? ==> t.waiting[id] == Matched(c, r.step))
  {
    hide FindStep;
  }

  datatype Entry = Accepted(matched: Matched) | Cleared

  /** What an event does to one user's last code. */
  function Entries(w: World, s: State, e: Event, userId: string): seq<Entry> {
    match e
    case Find(_, _) => []
    case Update(id) =>
      if && id in s.waiting && s.waiting[id].call.userId == userId
         && Accepts(s.rows, userId, w.hashOf(s.waiting[id].call.secret), s.waiting[id].step)
      then [Accepted(s.waiting[id])] else []
    case Clear(u) => if u == userId && u in s.rows then [Cleared] else []
  }

  /** What happened to one user's last code, in order. */
  function History(w: World, rows: Table, events: seq<Event>, userId: string): seq<Entry> {
    if events == [] then []
    else
      var before := events[..|events| - 1];
      History(w, rows, before, userId) + Entries(w, Run(w, rows, before), events[|events| - 1], userId)
  }

  /** The row that the latest entry left behind. */
  function RowAfter(w: World, h: seq<Entry>, first: Row): Row {
    if h == [] then first
    else match h[|h| - 1]
         case Cleared => Row(None, None)
         case Accepted(m) => Row(Some(w.hashOf(m.call.secret)), Some(m.step))
  }

  /** Every accepted entry was fresh when it was accepted. */
  predicate FreshHistory(w: World, h: seq<Entry>, first: Row) {
    h == [] ||
    var before := h[..|h| - 1];
    && FreshHistory(w, before, first)
    && match h[|h| - 1]
       case Cleared => true
       case Accepted(m) => Fresh(RowAfter(w, before, first), w.hashOf(m.call.secret), m.step)
  }

  lemma FreshAppend(w: World, h: seq<Entry>, x: Entry, first: Row)
    ensures RowAfter(w, h + [x], first) == match x
            case Cleared => Row(None, None)
            case Accepted(m) => Row(Some(w.hashOf(m.call.secret)), Some(m.step))
    ensures FreshHistory(w, h + [x], first) <==>
              && FreshHistory(w, h, first)
              && (x.Accepted? ==> Fresh(RowAfter(w, h, first), w.hashOf(x.matched.call.secret), x.matched.step))
  {
    assert (h + [x])[..|h|] == h;
  }

  /** The row is what the history says, and every acceptance in it was fresh. */
  lemma {:induction false} HistoryExplainsRow(w: World, rows: Table, events: seq<Event>, userId: string)
    ensures var h := History(w, rows, events, userId);
            var s := Run(w, rows, events);
            && s.rows.Keys == rows.Keys
            && (userId in rows ==> s.rows[userId] == RowAfter(w, h, rows[userId]) && FreshHistory(w, h, rows[userId]))
            && (userId !in rows ==> h == [])
  {
    hide After, Entries, FreshHistory, RowAfter, Fresh;
    if events == [] {
      NoHistory(w, if userId in rows then rows[userId] else Row(None, None));
    } else {
      var before := events[..|events| - 1];
      var e := events[|events| - 1];
      var h := History(w, rows, before, userId);
      var added := Entries(w, Run(w, rows, before), e, userId);
      HistoryExplainsRow(w, rows, before, userId);
      EntriesExplain(w, Run(w, rows, before), e, userId);
      if added == [] {
        assert h + added == h;
      } else {
        FreshAppend(w, h, added[0], rows[userId]);
        assert added == [added[0]];
      }
    }
  }

  lemma NoHistory(w: World, first: Row)
    ensures FreshHistory(w, [], first) && RowAfter(w, [], first) == first
  {
  }

  /** What one event does to one row. */
  lemma EntriesExplain(w: World, s: State, e: Event, userId: string)
    ensures var added := Entries(w, s, e, userId);
            && After(w, s, e).rows.Keys == s.rows.Keys
            && |added| <= 1 && (added != [] ==> userId in s.rows)
            && (added == [] && userId in s.rows ==> After(w, s, e).rows[userId] == s.rows[userId])
            && (added != [] ==> match added[0]
                                case Cleared => After(w, s, e).rows[userId] == Row(None, None)
                                case Accepted(m) =>
                                  && Fresh(s.rows[userId], w.hashOf(m.call.secret), m.step)
                                  && After(w, s, e).rows[userId] == Row(Some(w.hashOf(m.call.secret)), Some(m.step)))
  {
    hide FindStep, Fresh;
  }

  /** A matched call comes from a find step among the events. */
  ghost predicate Originates(w: World, events: seq<Event>, m: Matched) {
    && FindStep(w.codeAt, m.call.secret, m.call.code, m.call.window, m.call.timestamp) == Found(m.step)
    && exists i :: 0 <= i < |events| && events[i].Find? && events[i].call == m.call
  }

  ghost predicate WaitingOriginates(w: World, events: seq<Event>, s: State) {
    forall id :: id in s.waiting ==> Originates(w, events, s.waiting[id])
  }

  ghost predicate HistoryOriginates(w: World, events: seq<Event>, h: seq<Entry>, userId: string) {
    forall k :: 0 <= k < |h| ==>
      h[k].Accepted? ==> Originates(w, events, h[k].matched) && h[k].matched.call.userId == userId
  }

  lemma OriginatesLater(w: World, events: seq<Event>, n: nat, m: Matched)
    requires n <= |events| && Originates(w, events[..n], m)
    ensures Originates(w, events, m)
  {
    var i :| 0 <= i < n && events[..n][i].Find? && events[..n][i].call == m.call;
    assert events[i] == events[..n][i];
  }

  lemma {:induction false} Origins(w: World, rows: Table, events: seq<Event>, userId: string)
    ensures WaitingOriginates(w, events, Run(w, rows, events))
    ensures HistoryOriginates(w, events, History(w, rows, events, userId), userId)
  {
    if events != [] {
      var n := |events| - 1;
      var before, e := events[..n], events[n];
      Origins(w, rows, before, userId);
      forall m | Originates(w, before, m) ensures Originates(w, events, m) {
        OriginatesLater(w, events, n, m);
      }
      var s := Run(w, rows, before);
      var next := After(w, s, e);
      forall id | id in next.waiting ensures Originates(w, events, next.waiting[id]) {
        if id in s.waiting && next.waiting[id] == s.waiting[id] {
          assert Originates(w, before, s.waiting[id]);
        } else {
          assert events[n].Find? && events[n].call == next.waiting[id].call;
        }
      }
    }
  }

  // Acceptances of one secret -----------------------------------------------

  /** All entries from i to j are acceptances with one and the same secret hash. */
  ghost predicate OneSecret(w: World, h: seq<Entry>, i: nat, j: nat)
    requires i <= j < |h|
  {
    && h[i].Accepted?
    && forall k :: i <= k <= j ==> h[k].Accepted? && w.hashOf(h[k].matched.call.secret) == w.hashOf(h[i].matched.call.secret)
  }

  lemma {:induction false} FreshPrefix(w: World, h: seq<Entry>, first: Row, n: nat)
    requires FreshHistory(w, h, first) && n <= |h|
    ensures FreshHistory(w, h[..n], first)
  {
    if n == |h| {
      assert h[..n] == h;
    } else {
      assert h[..n] == h[..|h| - 1][..n];
      FreshPrefix(w, h[..|h| - 1], first, n);
    }
  }

  lemma {:induction false} StepsRise(w: World, h: seq<Entry>, first: Row, i: nat, j: nat)
    requires FreshHistory(w, h, first) && i < j < |h| && OneSecret(w, h, i, j)
    ensures h[i].matched.step < h[j].matched.step
  {
    var head := h[..j + 1];
    FreshPrefix(w, h, first, j + 1);
    assert head[..j] == h[..j];
    assert RowAfter(w, h[..j], first) == Row(Some(w.hashOf(h[j - 1].matched.call.secret)), Some(h[j - 1].matched.step));
    assert w.hashOf(h[j - 1].matched.call.secret) == w.hashOf(h[j].matched.call.secret);
    if i < j - 1 {
      assert OneSecret(w, h, i, j - 1);
      StepsRise(w, h, first, i, j - 1);
    }
  }

  /** Under any interleaving, two acceptances for a user rise strictly as long as
      only that secret is accepted and nothing is cleared from the first to the
      second: no time step, and so no code, is accepted twice. */
  lemma {:induction false} AcceptedStepsRise(w: World, rows: Table, events: seq<Event>, userId: string, i: nat, j: nat)
    requires i < j < |History(w, rows, events, userId)|
    requires OneSecret(w, History(w, rows, events, userId), i, j)
    ensures History(w, rows, events, userId)[i].matched.step < History(w, rows, events, userId)[j].matched.step
  {
    HistoryExplainsRow(w, rows, events, userId);
    StepsRise(w, History(w, rows, events, userId), rows[userId], i, j);
  }

  /** A user whose calls all use one secret, and who is never cleared. */
  ghost predicate OnlySecret(events: seq<Event>, userId: string, secret: string) {
    forall i :: 0 <= i < |events| ==>
      && (events[i].Find? && events[i].call.userId == userId ==> events[i].call.secret == secret)
      && events[i] != Clear(userId)
  }

  ghost predicate AllAccepted(h: seq<Entry>) {
    forall k :: 0 <= k < |h| ==> h[k].Accepted?
  }

  lemma {:induction false} NeverCleared(w: World, rows: Table, events: seq<Event>, userId: string)
    requires forall i :: 0 <= i < |events| ==> events[i] != Clear(userId)
    ensures AllAccepted(History(w, rows, events, userId))
  {
    if events != [] {
      assert events[|events| - 1] != Clear(userId);
      NeverCleared(w, rows, events[..|events| - 1], userId);
    }
  }

  ghost predicate AllOf(h: seq<Entry>, secret: string) {
    forall k :: 0 <= k < |h| ==> h[k].Accepted? && h[k].matched.call.secret == secret
  }

  lemma OnlySecretHistory(w: World, rows: Table, events: seq<Event>, userId: string, secret: string)
    requires OnlySecret(events, userId, secret)
    ensures AllOf(History(w, rows, events, userId), secret)
  {
    Origins(w, rows, events, userId);
    NeverCleared(w, rows, events, userId);
  }

  /** The successes among the calls whose own time step lies in a..b. */
  ghost function SuccessesBetween(h: seq<Entry>, a: int, b: int): set<nat> {
    set i: nat | i < |h| && h[i].Accepted? && a <= TotpStep(h[i].matched.call.timestamp) <= b
  }

  /** A set of indices whose steps rise and stay in lo..hi has at most hi-lo+1 members. */
  lemma {:induction false} RisingCount(h: seq<Entry>, s: set<nat>, lo: int, hi: int)
    requires forall i :: i in s ==> i < |h| && h[i].Accepted? && lo <= h[i].matched.step <= hi
    requires forall i, j :: i in s && j in s && i < j ==> h[i].matched.step < h[j].matched.step
    ensures |s| <= if lo <= hi then hi - lo + 1 else 0
    decreases hi - lo
  {
    if s != {} {
      var x :| x in s;
      assert lo <= hi;
      var top := set i | i in s && h[i].matched.step == hi;
      if y :| y in top {
        assert top == {y};
      }
      assert s == top + (s - top);
      RisingCount(h, s - top, lo, hi - 1);
    }
  }

  /** With one secret, calls made during the steps a..b succeed at most
      (b-a+1) + 2*window times in all, however they interleave. */
  lemma {:induction false} SuccessesAreBounded(w: World, rows: Table, events: seq<Event>, userId: string, secret: string,
                            window: nat, a: int, b: int)
    requires OnlySecret(events, userId, secret) && a <= b
    requires forall i :: 0 <= i < |events| && events[i].Find? ==> events[i].call.window <= window
    ensures |SuccessesBetween(History(w, rows, events, userId), a, b)| <= (b - a + 1) + 2 * window
  {
    var h := History(w, rows, events, userId);
    var s := SuccessesBetween(h, a, b);
    OnlySecretHistory(w, rows, events, userId, secret);
    forall i | i in s ensures a - window <= h[i].matched.step <= b + window {
      StepIsInWindow(w, rows, events, userId, window, i);
    }
    forall i, j | i in s && j in s && i < j ensures h[i].matched.step < h[j].matched.step {
      AcceptedStepsRise(w, rows, events, userId, i, j);
    }
    RisingCount(h, s, a - window, b + window);
  }

  lemma StepIsInWindow(w: World, rows: Table, events: seq<Event>, userId: string, window: nat, k: nat)
    requires forall i :: 0 <= i < |events| && events[i].Find? ==> events[i].call.window <= window
    requires k < |History(w, rows, events, userId)| && History(w, rows, events, userId)[k].Accepted?
    ensures var m := History(w, rows, events, userId)[k].matched;
            TotpStep(m.call.timestamp) - window <= m.step <= TotpStep(m.call.timestamp) + window
  {
    Origins(w, rows, events, userId);
    var c := History(w, rows, events, userId)[k].matched.call;
    FindFromMeaning(w.codeAt, c.secret, Trim(c.code), TotpStep(c.timestamp) - c.window, TotpStep(c.timestamp) + c.window);
  }

  /** Above every step accepted for that secret since anything else happened to the
      row: a clear, or a code of another secret. Without a history the row decides. */
  ghost predicate Unspent(w: World, h: seq<Entry>, first: Row, hash: string, step: int) {
    if h == [] then Fresh(first, hash, step)
    else forall k :: 0 <= k < |h| && OneSecret(w, h, k, |h| - 1) && w.hashOf(h[k].matched.call.secret) == hash
                     ==> h[k].matched.step < step
  }

  /** The update looks at the latest row only; that amounts to the whole history. */
  lemma {:induction false} FreshIffUnspent(w: World, h: seq<Entry>, first: Row, hash: string, step: int)
    requires FreshHistory(w, h, first)
    ensures Fresh(RowAfter(w, h, first), hash, step) <==> Unspent(w, h, first, hash, step)
  {
    hide FreshHistory;
    if h != [] {
      var n := |h| - 1;
      if h[n].Accepted? {
        assert OneSecret(w, h, n, n);
        forall k | 0 <= k < n && OneSecret(w, h, k, n) ensures h[k].matched.step < h[n].matched.step {
          StepsRise(w, h, first, k, n);
        }
      } else {
        forall k | 0 <= k <= n ensures !OneSecret(w, h, k, n) {
        }
      }
    }
  }

  /** Exactly when a matched call is accepted, for every user, secret and interleaving:
      the user exists, and the step is above every step accepted for that secret since
      the row was last cleared or a code of another secret was accepted. */
  lemma {:induction false} AcceptedIffUnspent(w: World, rows: Table, events: seq<Event>, id: nat)
    requires id in Run(w, rows, events).waiting
    ensures var m := Run(w, rows, events).waiting[id];
            var userId := m.call.userId;
            Entries(w, Run(w, rows, events), Update(id), userId) == [Accepted(m)]
            <==> userId in rows
                 && Unspent(w, History(w, rows, events, userId), rows[userId], w.hashOf(m.call.secret), m.step)
  {
    hide Run, History, Unspent, FreshHistory, Fresh;
    var m := Run(w, rows, events).waiting[id];
    var userId := m.call.userId;
    HistoryExplainsRow(w, rows, events, userId);
    if userId in rows {
      FreshIffUnspent(w, History(w, rows, events, userId), rows[userId], w.hashOf(m.call.secret), m.step);
    }
  }

  // Why one secret ----------------------------------------------------------

  /** Three calls find their steps, then try their updates in turn. */
  function ReplayEvents(c1: Call, c2: Call): seq<Event> {
    [Find(0, c1), Find(1, c2), Find(2, c1), Update(0), Update(1), Update(2)]
  }

  lemma RunStep(w: World, rows: Table, events: seq<Event>, userId: string, n: nat)
    requires n < |events|
    ensures Run(w, rows, events[..n + 1]) == After(w, Run(w, rows, events[..n]), events[n])
    ensures History(w, rows, events[..n + 1], userId)
            == History(w, rows, events[..n], userId) + Entries(w, Run(w, rows, events[..n]), events[n], userId)
  {
    hide After, Entries;
    assert events[..n + 1][..n] == events[..n];
  }

  lemma FindsFirst(w: World, rows: Table, c1: Call, c2: Call, step1: int, step2: int)
    requires FindStep(w.codeAt, c1.secret, c1.code, c1.window, c1.timestamp) == Found(step1)
    requires FindStep(w.codeAt, c2.secret, c2.code, c2.window, c2.timestamp) == Found(step2)
    ensures Run(w, rows, ReplayEvents(c1, c2)[..3])
            == State(rows, map[0 := Matched(c1, step1), 1 := Matched(c2, step2), 2 := Matched(c1, step1)])
    ensures History(w, rows, ReplayEvents(c1, c2)[..3], c1.userId) == []
  {
    hide FindStep, Run, History;
    var events := ReplayEvents(c1, c2);
    NoEvents(w, rows, c1.userId);
    assert events[..0] == [];
    RunStep(w, rows, events, c1.userId, 0);
    RunStep(w, rows, events, c1.userId, 1);
    RunStep(w, rows, events, c1.userId, 2);
  }

  lemma NoEvents(w: World, rows: Table, userId: string)
    ensures Run(w, rows, []) == State(rows, map[]) && History(w, rows, [], userId) == []
  {
  }

  /** With two secrets in turn one and the same call, code and all, is accepted twice:
      the row remembers only the latest secret. */
  lemma {:induction false} TwoSecretsReplay(w: World, rows: Table, c1: Call, c2: Call, step1: int, step2: int)
    requires c1.userId == c2.userId && c1.userId in rows && w.hashOf(c1.secret) != w.hashOf(c2.secret)
    requires FindStep(w.codeAt, c1.secret, c1.code, c1.window, c1.timestamp) == Found(step1)
    requires FindStep(w.codeAt, c2.secret, c2.code, c2.window, c2.timestamp) == Found(step2)
    requires Fresh(rows[c1.userId], w.hashOf(c1.secret), step1)
    ensures History(w, rows, ReplayEvents(c1, c2), c1.userId)
            == [Accepted(Matched(c1, step1)), Accepted(Matched(c2, step2)), Accepted(Matched(c1, step1))]
  {
    hide FindStep, Run, History;
    var events, u := ReplayEvents(c1, c2), c1.userId;
    FindsFirst(w, rows, c1, c2, step1, step2);
    RunStep(w, rows, events, u, 3);
    assert Run(w, rows, events[..4]).rows[u] == Row(Some(w.hashOf(c1.secret)), Some(step1));
    RunStep(w, rows, events, u, 4);
    assert Run(w, rows, events[..5]).rows[u] == Row(Some(w.hashOf(c2.secret)), Some(step2));
    RunStep(w, rows, events, u, 5);
    assert events[..6] == events;
  }

  lemma FoundAtOnce(codeAt: CodeAt, secret: string, code: string, timestamp: int)
    requires SixDigits(code) && CodeOfStep(codeAt, secret, TotpStep(timestamp)) == Some(code)
    ensures FindStep(codeAt, secret, code, 0, timestamp) == Found(TotpStep(timestamp))
  {
    TrimOfTrimmed(code);
  }

  /** One accepted call, step and all, stands twice in the history. */
  ghost predicate AcceptedTwice(h: seq<Entry>) {
    exists i, j :: 0 <= i < j < |h| && h[i].Accepted? && h[i] == h[j]
  }

  /** Every user can meet a world, a table and calls in which this happens. */
  lemma ReplayExample(userId: string)
    ensures exists w, rows, events :: AcceptedTwice(History(w, rows, events, userId))
  {
    hide *;
    var w := World((secret, at) => Some("000000"), secret => secret);
    var rows := map[userId := Row(None, None)];
    var c1, c2 := Call(userId, "A", "000000", 0, 0), Call(userId, "B", "000000", 0, 0);
    FoundInExample(w, "A");
    FoundInExample(w, "B");
    assert "A" != "B" by {
      assert "A"[0] != "B"[0];
    }
    EmptyRowIsFresh(w.hashOf("A"), TotpStep(0));
    TwoSecretsReplay(w, rows, c1, c2, TotpStep(0), TotpStep(0));
    FirstAndThird(History(w, rows, ReplayEvents(c1, c2), userId));
  }

  lemma EmptyRowIsFresh(hash: string, step: int)
    ensures Fresh(Row(None, None), hash, step)
  {
  }

  lemma FirstAndThird(h: seq<Entry>)
    requires |h| == 3 && h[0].Accepted? && h[0] == h[2]
    ensures AcceptedTwice(h)
  {
  }

  lemma FoundInExample(w: World, secret: string)
    requires forall at :: w.codeAt(secret, at) == Some("000000")
    ensures FindStep(w.codeAt, secret, "000000", 0, 0) == Found(TotpStep(0))
  {
    FoundAtOnce(w.codeAt, secret, "000000", 0);
  }
}
