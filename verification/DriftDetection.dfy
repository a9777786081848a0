/** Drift between the CCD files on a VPN server and the database. */
module DriftDetection {
  import opened Text
  import opened Collections
  import opened Ipv4
  import opened Ccd
  import opened CcdComparison
  import opened CommonNames
  import Shell

  // Writing a file through the shell ------------------------------------------

  const DELIMITER: string := "CCDEOF"

  function BuildCcdWriteCommand(ccdPath: string, commonName: string, content: string): Option<string> {
    if !ValidCommonName(commonName) then None
    else if !Shell.ValidServerPath(ccdPath) then None
    else
      var target := Shell.ShellEscape(ccdPath + "/" + commonName);
      Some(Join(["cat > " + target + " << 'CCDEOF'", content, DELIMITER, "chmod 644 " + target], "\n"))
  }

  /** Section 2.7.4 of the Shell Command Language: a here-document is made of the
      lines up to the first that is the delimiter. */
  function HereDocument(lines: seq<string>): string {
    if lines == [] || lines[0] == "CCDEOF" then "" else lines[0] + "\n" + HereDocument(lines[1..])
  }

  /** What the command puts into the file. */
  function FileWritten(command: string): string {
    HereDocument(Split(command, '\n')[1..])
  }

  lemma {:induction false} HereDocumentUpTo(lines: seq<string>, rest: seq<string>)
    requires lines != [] && DELIMITER !in lines
    ensures HereDocument(lines + [DELIMITER] + rest) == Join(lines, "\n") + "\n"
  {
    var all := lines + [DELIMITER] + rest;
    if |lines| == 1 {
      assert all[1..] == [DELIMITER] + rest;
      assert lines[0] + "\n" + "" == lines[0] + "\n";
    } else {
      HereDocumentUpTo(lines[1..], rest);
      assert all[1..] == lines[1..] + [DELIMITER] + rest;
      var j := Join(lines[1..], "\n");
      assert lines[0] + "\n" + (j + "\n") == lines[0] + "\n" + j + "\n";
    }
  }

  lemma {:induction false} ReplacedHasNoNewline(s: string)
    requires '\n' !in s
    ensures '\n' !in Shell.ReplaceQuotes(s)
  {
    if s != [] {
      ReplacedHasNoNewline(s[1..]);
    }
  }

  lemma TargetHasNoNewline(ccdPath: string, commonName: string)
    requires Shell.ValidServerPath(ccdPath) && ValidCommonName(commonName)
    ensures '\n' !in Shell.ShellEscape(ccdPath + "/" + commonName)
  {
    var s := ccdPath + "/" + commonName;
    forall i | 0 <= i < |s| ensures s[i] != '\n' {
      if i < |ccdPath| {
        assert s[i] == ccdPath[i] && Shell.IsPathChar(ccdPath[i]);
      } else if i > |ccdPath| {
        assert s[i] == commonName[i - |ccdPath| - 1] && IsNameChar(commonName[i - |ccdPath| - 1]);
      }
    }
    ReplacedHasNoNewline(s);
  }

  /** A write command for one file: its first line redirects to that file, its last one
      sets the mode of that file. */
  ghost predicate IsFor(command: string, path: string) {
    var lines := Split(command, '\n');
    var target := Shell.ShellEscape(path);
    && |lines| >= 2
    && lines[0] == "cat > " + target + " << 'CCDEOF'" && Shell.Tokens(target) == Some([Shell.Word(path)])
    && Shell.Tokens(lines[|lines| - 1]) == Some([Shell.Word("chmod"), Shell.Word("644"), Shell.Word(path)])
  }

  /** The command writes the content and a newline into the file of that name, for any
      content without a line that is the delimiter; it is refused exactly for an
      invalid name or path. */
  lemma {:induction false} WriteCommandWrites(ccdPath: string, commonName: string, content: string)
    ensures BuildCcdWriteCommand(ccdPath, commonName, content).Some?
            <==> ValidCommonName(commonName) && Shell.ValidServerPath(ccdPath)
    ensures BuildCcdWriteCommand(ccdPath, commonName, content).Some? && DELIMITER !in Split(content, '\n')
            ==> FileWritten(BuildCcdWriteCommand(ccdPath, commonName, content).value) == content + "\n"
    ensures BuildCcdWriteCommand(ccdPath, commonName, content).Some?
            ==> IsFor(BuildCcdWriteCommand(ccdPath, commonName, content).value, ccdPath + "/" + commonName)
  {
    if ValidCommonName(commonName) && Shell.ValidServerPath(ccdPath) {
      TargetHasNoNewline(ccdPath, commonName);
      CommandIsFor(ccdPath + "/" + commonName, content);
    }
    if ValidCommonName(commonName) && Shell.ValidServerPath(ccdPath) && DELIMITER !in Split(content, '\n') {
      TargetHasNoNewline(ccdPath, commonName);
      WriteCommandText("cat > " + Shell.ShellEscape(ccdPath + "/" + commonName) + " << 'CCDEOF'", content,
                       "chmod 644 " + Shell.ShellEscape(ccdPath + "/" + commonName));
    }
  }

  lemma CommandIsFor(path: string, content: string)
    requires '\n' !in Shell.ShellEscape(path)
    ensures var target := Shell.ShellEscape(path);
            IsFor(Join(["cat > " + target + " << 'CCDEOF'", content, DELIMITER, "chmod 644 " + target], "\n"), path)
  {
    hide Split, Join, Shell.ShellEscape, Shell.Tokens;
    var target := Shell.ShellEscape(path);
    var first, last := "cat > " + target + " << 'CCDEOF'", "chmod 644 " + target;
    ModeTokens(path);
    Shell.EscapedIsOneWord(path);
    JoinOfFour(first, content, DELIMITER, last, "\n");
    var end := DELIMITER + ['\n'] + last;
    SplitHead(first, content + ['\n'] + end, '\n');
    SplitSum(content, end, '\n');
    SplitHead(DELIMITER, last, '\n');
    SplitNone(last, '\n');
  }

  lemma ModeTokens(path: string)
    ensures Shell.Tokens("chmod 644 " + Shell.ShellEscape(path))
            == Some([Shell.Word("chmod"), Shell.Word("644"), Shell.Word(path)])
  {
    hide Shell.Tokens, Shell.ShellEscape;
    Shell.ThreeWords("chmod", "644", [Shell.Escaped(path)]);
    Shell.OnePiece(path);
    var target := Shell.ShellEscape(path);
    assert "chmod" + " " + "644" + " " + target == "chmod 644 " + target;
  }

  lemma WriteCommandText(first: string, content: string, last: string)
    requires '\n' !in first && DELIMITER !in Split(content, '\n')
    ensures FileWritten(Join([first, content, DELIMITER, last], "\n")) == content + "\n"
  {
    hide Split, Join;
    var lines := Split(content, '\n');
    var end := DELIMITER + ['\n'] + last;
    JoinOfFour(first, content, DELIMITER, last, "\n");
    SplitHead(first, content + ['\n'] + end, '\n');
    SplitSum(content, end, '\n');
    SplitHead(DELIMITER, last, '\n');
    HereDocumentUpTo(lines, Split(last, '\n'));
    JoinOfSplit(content, '\n');
    assert lines + ([DELIMITER] + Split(last, '\n')) == lines + [DELIMITER] + Split(last, '\n');
    assert ([first] + (lines + ([DELIMITER] + Split(last, '\n'))))[1..] == lines + ([DELIMITER] + Split(last, '\n'));
  }

  // The database side ---------------------------------------------------------

  datatype DbUser = DbUser(commonName: string, ccd: Ccd.User)

  /** Blocks and networks are valid, a static address is made of digits and dots. */
  predicate ValidDbUser(u: DbUser, now: int) {
    ValidUser(u.ccd, now) && (HasStatic(u.ccd.staticIp) ==> AddressText(u.ccd.staticIp.value))
  }

  predicate ValidDbUsers(users: seq<DbUser>, now: int) {
    forall i :: 0 <= i < |users| ==> ValidDbUser(users[i], now)
  }

  function Expected(u: DbUser, now: int): string
    requires ValidDbUser(u, now)
  {
    CcdFor(u.ccd, now)
  }

  /** No generated line is the delimiter. */
  lemma ExpectedHasNoDelimiter(u: DbUser, now: int)
    requires ValidDbUser(u, now)
    ensures DELIMITER !in Split(Expected(u, now), '\n')
  {
    var routes := RoutesOf(Blocks(u.ccd, now));
    BlockRoutesArePlain(Blocks(u.ccd, now));
    hide ValidUser, AddressText, Blocks, RoutesOf, StaticLine, RouteLine, Distinct, ValidCidr, Split;
    var lines := CcdLines(routes, u.ccd.staticIp, u.ccd.vpnNetwork);
    if lines == [] {
      SplitNone("", '\n');
    } else {
      LinesHaveNoNewline(routes, u.ccd.staticIp, u.ccd.vpnNetwork);
      SplitOfJoin(lines, '\n');
      forall l | l in lines ensures l != DELIMITER {
        LineStart(routes, u.ccd.staticIp, u.ccd.vpnNetwork, l);
      }
    }
  }

  lemma LineStart(routes: seq<Route>, staticIp: Option<string>, vpnNetwork: string, line: string)
    requires vpnNetwork == "" || ValidCidr(vpnNetwork)
    requires line in CcdLines(routes, staticIp, vpnNetwork)
    ensures line != [] && (line[0] == 'i' || line[0] == 'p')
  {
    hide RouteLine, StaticLine, Distinct, ValidCidr;
    if HasStatic(staticIp) {
      StaticStartsWithI(staticIp.value, vpnNetwork);
    }
    if line in RouteLines(Distinct(routes)) {
      var i :| 0 <= i < |Distinct(routes)| && RouteLines(Distinct(routes))[i] == line;
      RouteLineTrimmed(Distinct(routes)[i]);
    }
  }

  // Reconciling ---------------------------------------------------------------

  type Files = map<string, string>

  /** How a write command ends: it wrote the file; it failed (its exit code is not
      looked at) and left some file or none under that name; or the transport threw. */
  datatype Write = Wrote | Left(file: Option<string>) | Threw

  /** `synced` are the users marked SUCCESS. */
  datatype State = State(files: Files, synced: set<string>, completed: bool)

  function StoreFile(files: Files, commonName: string, file: Option<string>): Files {
    if file.Some? then files[commonName := file.value] else files - {commonName}
  }

  function Push(s: State, ccdPath: string, u: DbUser, write: Write, now: int): State
    requires ValidDbUser(u, now)
  {
    var command := BuildCcdWriteCommand(ccdPath, u.commonName, Expected(u, now));
    if command.None? || write.Threw? then s.(completed := false)
    else
      var file := if write.Wrote? then Some(FileWritten(command.value)) else write.file;
      s.(files := StoreFile(s.files, u.commonName, file), synced := s.synced + {u.commonName})
  }

  /** User by user; what throws ends the whole pass. */
  function Reconciled(s: State, ccdPath: string, users: seq<DbUser>, writes: seq<Write>, now: int): State
    requires |writes| == |users| && ValidDbUsers(users, now)
  {
    if users == [] then s
    else
      var n := |users| - 1;
      var before := Reconciled(s, ccdPath, users[..n], writes[..n], now);
      if before.completed then Push(before, ccdPath, users[n], writes[n], now) else before
  }

  // Detecting -----------------------------------------------------------------

  datatype Mismatch = Mismatch(commonName: string, expected: string, actual: string)

  datatype Drift = Drift(missing: seq<string>, extra: seq<string>, mismatched: seq<Mismatch>)

  /** The valid names in a directory listing; none when listing failed. */
  function ValidNames(lines: seq<string>): (names: seq<string>)
    ensures forall n :: n in names ==> ValidCommonName(n)
  {
    if lines == [] then []
    else
      var t := Trim(lines[0]);
      (if |t| > 0 && ValidCommonName(t) then [t] else []) + ValidNames(lines[1..])
  }

  function ServerFiles(stdout: Option<string>): seq<string> {
    if stdout.Some? then ValidNames(Split(stdout.value, '\n')) else []
  }

  function Names(users: seq<DbUser>): (names: seq<string>)
    ensures |names| == |users| && forall i :: 0 <= i < |users| ==> names[i] == users[i].commonName
  {
    seq(|users|, i requires 0 <= i < |users| => users[i].commonName)
  }

  function Without(names: seq<string>, others: seq<string>): seq<string> {
    if names == [] then []
    else (if names[0] in others then [] else [names[0]]) + Without(names[1..], others)
  }

  /** A file that cannot be read counts as empty. */
  function Actual(files: Files, unreadable: set<string>, commonName: string): string {
    if commonName in files && commonName !in unreadable then files[commonName] else ""
  }

  function Mismatches(users: seq<DbUser>, listed: seq<string>, files: Files, unreadable: set<string>, now: int): seq<Mismatch>
    requires ValidDbUsers(users, now)
  {
    if users == [] then []
    else
      var n := |users| - 1;
      var u := users[n];
      var actual := Actual(files, unreadable, u.commonName);
      Mismatches(users[..n], listed, files, unreadable, now)
      + if u.commonName in listed && NormalizeCcd(actual) != NormalizeCcd(Expected(u, now))
        then [Mismatch(u.commonName, Expected(u, now), actual)] else []
  }

  function Detected(users: seq<DbUser>, stdout: Option<string>, files: Files, unreadable: set<string>, now: int): Drift
    requires ValidDbUsers(users, now)
  {
    var listed := ServerFiles(stdout);
    Drift(Without(Names(users), listed), Without(listed, Names(users)), Mismatches(users, listed, files, unreadable, now))
  }

  // The operations ------------------------------------------------------------

  class Server {
    const ccdPath: string
    var files: Files
    var synced: set<string>

    constructor (ccdPath: string)
      ensures this.ccdPath == ccdPath && files == map[] && synced == {}
    {
      this.ccdPath, files, synced := ccdPath, map[], {};
    }

    function Contents(completed: bool): State
      reads this
    {
      State(files, synced, completed)
    }

    method ReconcileDrift(users: seq<DbUser>, writes: seq<Write>, now: int) returns (completed: bool)
      requires |writes| == |users| && ValidDbUsers(users, now)
      modifies this
      ensures Contents(completed) == Reconciled(old(Contents(true)), ccdPath, users, writes, now)
    {
      hide ValidDbUser, BuildCcdWriteCommand, Expected, FileWritten;
      for i := 0 to |users|
        invariant Contents(true) == Reconciled(old(Contents(true)), ccdPath, users[..i], writes[..i], now)
      {
        assert users[..i + 1][..i] == users[..i] && writes[..i + 1][..i] == writes[..i];
        var expected := Expected(users[i], now);
        var command := BuildCcdWriteCommand(ccdPath, users[i].commonName, expected);
        if command.None? || writes[i].Threw? {
          StopsThere(old(Contents(true)), ccdPath, users, writes, now, i);
          return false;
        }
        files := StoreFile(files, users[i].commonName,
                           if writes[i].Wrote? then Some(FileWritten(command.value)) else writes[i].file);
        synced := synced + {users[i].commonName};
      }
      assert users[..|users|] == users && writes[..|writes|] == writes;
      return true;
    }

    method DetectDrift(users: seq<DbUser>, stdout: Option<string>, unreadable: set<string>, now: int)
      returns (drift: Option<Drift>)
      requires ValidDbUsers(users, now)
      ensures drift == if Shell.ValidServerPath(ccdPath) then Some(Detected(users, stdout, files, unreadable, now)) else None
    {
      hide ValidDbUser, Expected, NormalizeCcd;
      var ls := Shell.BuildListDirectoryCommand(ccdPath);
      if ls.None? {
        return None;
      }
      var listed := ServerFiles(stdout);
      var mismatched: seq<Mismatch> := [];
      for i := 0 to |users|
        invariant mismatched == Mismatches(users[..i], listed, files, unreadable, now)
      {
        assert users[..i + 1][..i] == users[..i];
        if users[i].commonName in listed {
          var actual := Actual(files, unreadable, users[i].commonName);
          var expected := Expected(users[i], now);
          if NormalizeCcd(actual) != NormalizeCcd(expected) {
            mismatched := mismatched + [Mismatch(users[i].commonName, expected, actual)];
          }
        }
      }
      assert users[..|users|] == users;
      return Some(Drift(Without(Names(users), listed), Without(listed, Names(users)), mismatched));
    }
  }

  lemma {:induction false} StopsThere(s: State, ccdPath: string, users: seq<DbUser>, writes: seq<Write>, now: int, i: nat)
    requires |writes| == |users| && ValidDbUsers(users, now) && i < |users|
    requires Reconciled(s, ccdPath, users[..i], writes[..i], now).completed
    requires BuildCcdWriteCommand(ccdPath, users[i].commonName, Expected(users[i], now)).None? || writes[i].Threw?
    ensures Reconciled(s, ccdPath, users, writes, now)
            == Reconciled(s, ccdPath, users[..i], writes[..i], now).(completed := false)
    decreases |users|
  {
    hide ValidDbUser, BuildCcdWriteCommand, Expected, FileWritten;
    var n := |users| - 1;
    assert users[..n][..i] == users[..i] && writes[..n][..i] == writes[..i];
    if i < n {
      assert users[..n][i] == users[i] && writes[..n][i] == writes[i];
      StopsThere(s, ccdPath, users[..n], writes[..n], now, i);
    }
  }

  // What detection finds --------------------------------------------------------

  lemma {:induction false} ValidNamesMeaning(lines: seq<string>, name: string)
    ensures name in ValidNames(lines) <==> ValidCommonName(name) && exists l :: l in lines && Trim(l) == name
  {
    hide Trim, ValidCommonName;
    EmptyIsInvalid();
    if lines != [] {
      ValidNamesMeaning(lines[1..], name);
      assert lines == [lines[0]] + lines[1..];
      if l :| l in lines && Trim(l) == name {
        assert l == lines[0] || l in lines[1..];
      }
    }
  }

  lemma EmptyIsInvalid()
    ensures !ValidCommonName("")
  {
  }

  lemma {:induction false} WithoutMeaning(names: seq<string>, others: seq<string>, name: string)
    ensures name in Without(names, others) <==> name in names && name !in others
  {
    if names != [] {
      WithoutMeaning(names[1..], others, name);
    }
  }

  /** The lines that an actual file has to offer: none when it cannot be read. */
  function Readable(files: Files, unreadable: set<string>, commonName: string): seq<string> {
    if commonName in files && commonName !in unreadable then Significant(files[commonName]) else []
  }

  lemma ActualIsReadable(files: Files, unreadable: set<string>, commonName: string)
    ensures Significant(Actual(files, unreadable, commonName)) == Readable(files, unreadable, commonName)
  {
    SplitNone("", '\n');
    assert [""][1..] == [];
  }

  /** A user whose listed file differs from the expected text in more than the order
      and trimming of its lines. */
  ghost predicate Differs(u: DbUser, listed: seq<string>, files: Files, unreadable: set<string>, now: int)
    requires ValidDbUser(u, now)
  {
    && u.commonName in listed
    && multiset(Readable(files, unreadable, u.commonName)) != multiset(Significant(Expected(u, now)))
  }

  lemma {:induction false} MismatchesMeaning(users: seq<DbUser>, listed: seq<string>, files: Files, unreadable: set<string>, now: int)
    requires ValidDbUsers(users, now)
    ensures forall m :: m in Mismatches(users, listed, files, unreadable, now) <==>
              exists i :: 0 <= i < |users| && Differs(users[i], listed, files, unreadable, now)
                          && m == Mismatch(users[i].commonName, Expected(users[i], now),
                                           Actual(files, unreadable, users[i].commonName))
  {
    hide ValidDbUser, Expected, NormalizeCcd, Significant, Actual, Readable;
    if users != [] {
      var n := |users| - 1;
      MismatchesMeaning(users[..n], listed, files, unreadable, now);
      SameNormalFormIff(Actual(files, unreadable, users[n].commonName), Expected(users[n], now));
      ActualIsReadable(files, unreadable, users[n].commonName);
      forall i | 0 <= i < n ensures users[..n][i] == users[i] {
      }
    }
  }

  /** The three findings, without loops or normal forms. */
  lemma {:induction false} DetectionMeaning(users: seq<DbUser>, stdout: Option<string>, files: Files, unreadable: set<string>, now: int,
                         name: string)
    requires ValidDbUsers(users, now)
    ensures var d := Detected(users, stdout, files, unreadable, now);
            && (name in d.missing <==> name in Names(users) && name !in ServerFiles(stdout))
            && (name in d.extra <==> name in ServerFiles(stdout) && name !in Names(users))
            && ((exists m :: m in d.mismatched && m.commonName == name) <==>
                exists i :: 0 <= i < |users| && users[i].commonName == name
                            && Differs(users[i], ServerFiles(stdout), files, unreadable, now))
  {
    hide ValidDbUser, ServerFiles, Differs, Expected, Actual, Mismatches, Without;
    var listed := ServerFiles(stdout);
    WithoutMeaning(Names(users), listed, name);
    WithoutMeaning(listed, Names(users), name);
    MismatchesMeaning(users, listed, files, unreadable, now);
    if i :| 0 <= i < |users| && users[i].commonName == name && Differs(users[i], listed, files, unreadable, now) {
      var m := Mismatch(users[i].commonName, Expected(users[i], now), Actual(files, unreadable, users[i].commonName));
      assert m in Mismatches(users, listed, files, unreadable, now);
    }
  }

  // What reconciling leaves -----------------------------------------------------

  /** A pass completes exactly when no command is refused and no transport throws:
      one user with an invalid name stops it for all that follow. */
  lemma {:induction false} CompletesIff(s: State, ccdPath: string, users: seq<DbUser>, writes: seq<Write>, now: int)
    requires |writes| == |users| && ValidDbUsers(users, now) && s.completed
    ensures Reconciled(s, ccdPath, users, writes, now).completed
            <==> forall i :: 0 <= i < |users| ==> Buildable(ccdPath, users[i]) && !writes[i].Threw?
  {
    hide ValidDbUser, BuildCcdWriteCommand, Expected, FileWritten, Buildable;
    if users != [] {
      var n := |users| - 1;
      CompletesIff(s, ccdPath, users[..n], writes[..n], now);
      BuildableIff(ccdPath, users[n], now);
      forall i | 0 <= i < n ensures users[..n][i] == users[i] && writes[..n][i] == writes[i] {
      }
    }
  }

  predicate Buildable(ccdPath: string, u: DbUser) {
    Shell.ValidServerPath(ccdPath) && ValidCommonName(u.commonName)
  }

  lemma BuildableIff(ccdPath: string, u: DbUser, now: int)
    requires ValidDbUser(u, now)
    ensures BuildCcdWriteCommand(ccdPath, u.commonName, Expected(u, now)).Some? <==> Buildable(ccdPath, u)
  {
    hide Shell.ValidServerPath, ValidCommonName, Expected;
  }

  function Lookup(files: Files, name: string): Option<string> {
    if name in files then Some(files[name]) else None
  }

  /** The file a user is left with. */
  function FileAfter(u: DbUser, write: Write, now: int): Option<string>
    requires ValidDbUser(u, now) && !write.Threw?
  {
    if write.Wrote? then Some(Expected(u, now) + "\n") else write.file
  }

  lemma PushMeans(s: State, ccdPath: string, u: DbUser, write: Write, now: int)
    requires ValidDbUser(u, now) && Push(s, ccdPath, u, write, now).completed && s.completed
    ensures !write.Threw?
    ensures var t := Push(s, ccdPath, u, write, now);
            && t.files == StoreFile(s.files, u.commonName, FileAfter(u, write, now))
            && t.synced == s.synced + {u.commonName}
  {
    hide ValidDbUser, BuildCcdWriteCommand, Expected, FileWritten, StoreFile;
    ExpectedHasNoDelimiter(u, now);
    WriteCommandWrites(ccdPath, u.commonName, Expected(u, now));
  }

  /** After a completed pass each user has the file its write left, no other file has
      changed, and every user is marked SUCCESS whether or not the file was written. */
  lemma {:induction false} FilesAfterPass(s: State, ccdPath: string, users: seq<DbUser>, writes: seq<Write>, now: int)
    requires |writes| == |users| && ValidDbUsers(users, now) && s.completed
    requires Reconciled(s, ccdPath, users, writes, now).completed
    requires NoRepeats(Names(users))
    ensures var t := Reconciled(s, ccdPath, users, writes, now);
            && (forall i :: 0 <= i < |users| ==>
                  !writes[i].Threw? && Lookup(t.files, users[i].commonName) == FileAfter(users[i], writes[i], now))
            && (forall name :: name !in Names(users) ==> Lookup(t.files, name) == Lookup(s.files, name))
            && (forall name :: name in t.synced <==> name in s.synced || name in Names(users))
  {
    hide ValidDbUser, Push, FileAfter, NoRepeats;
    if users != [] {
      var n := |users| - 1;
      var u := users[n];
      NamesApart(users);
      assert forall i :: 0 <= i < n ==> users[..n][i] == users[i] && writes[..n][i] == writes[i];
      assert Names(users[..n]) == Names(users)[..n];
      FilesAfterPass(s, ccdPath, users[..n], writes[..n], now);
      var before := Reconciled(s, ccdPath, users[..n], writes[..n], now);
      PushMeans(before, ccdPath, u, writes[n], now);
      assert Names(users) == Names(users[..n]) + [u.commonName];
      LookupAfterStore(before.files, u.commonName, FileAfter(u, writes[n], now));
      hide StoreFile, Lookup;
    }
  }

  lemma NamesApart(users: seq<DbUser>)
    requires users != [] && NoRepeats(Names(users))
    ensures var n := |users| - 1;
            NoRepeats(Names(users[..n])) && forall i :: 0 <= i < n ==> users[i].commonName != users[n].commonName
  {
    var n := |users| - 1;
    assert Names(users[..n]) == Names(users)[..n];
    forall i | 0 <= i < n ensures users[i].commonName != users[n].commonName {
      assert Names(users)[i] != Names(users)[n];
    }
  }

  lemma LookupAfterStore(files: Files, name: string, file: Option<string>)
    ensures Lookup(StoreFile(files, name, file), name) == file
    ensures forall other :: other != name ==> Lookup(StoreFile(files, name, file), other) == Lookup(files, other)
  {
  }

  // Reconcile, then detect ------------------------------------------------------

  /** ls -1 without -a shows the names that do not start with a dot. */
  predicate Visible(name: string) {
    name != "" && name[0] != '.'
  }

  /** A listing shows exactly the visible files, one name a line. */
  ghost predicate Shows(stdout: string, files: Files) {
    forall name :: name != "" ==> (name in Split(stdout, '\n') <==> name in files && Visible(name))
  }

  /** No file name has blanks around it. */
  predicate Tidy(files: Files) {
    forall name :: name in files ==> Trim(name) == name
  }

  lemma ValidNameIsTrimmed(name: string)
    requires ValidCommonName(name)
    ensures Trim(name) == name && name != ""
  {
    assert IsNameChar(name[0]) && IsNameChar(name[|name| - 1]);
    TrimOfTrimmed(name);
  }

  lemma ListedIff(stdout: string, files: Files, name: string)
    requires ValidCommonName(name) && Tidy(files) && Shows(stdout, files)
    ensures name in ServerFiles(Some(stdout)) <==> name in files && Visible(name)
  {
    ValidNamesMeaning(Split(stdout, '\n'), name);
    ValidNameIsTrimmed(name);
    hide Trim, ValidCommonName, Split;
    if l :| l in Split(stdout, '\n') && Trim(l) == name {
      NothingTrimsToNothing();
      assert l != "";
    }
  }

  lemma NothingTrimsToNothing()
    ensures Trim("") == ""
  {
  }

  /** The write of a user left a file that says what is expected. */
  predicate Delivered(u: DbUser, write: Write, now: int)
    requires ValidDbUser(u, now)
  {
    write.Wrote? || (write.Left? && write.file.Some? && NormalizeCcd(write.file.value) == NormalizeCcd(Expected(u, now)))
  }

  lemma DeliveredIff(u: DbUser, write: Write, now: int)
    requires ValidDbUser(u, now) && !write.Threw?
    ensures Delivered(u, write, now) <==>
              FileAfter(u, write, now).Some? && NormalizeCcd(FileAfter(u, write, now).value) == NormalizeCcd(Expected(u, now))
  {
    hide ValidDbUser, Expected, NormalizeCcd;
    NormalFormOfFile(Expected(u, now));
  }

  lemma NothingMissingIff(users: seq<DbUser>, listed: seq<string>)
    ensures Without(Names(users), listed) == [] <==> forall i :: 0 <= i < |users| ==> users[i].commonName in listed
  {
    hide Without;
    var w := Without(Names(users), listed);
    if w != [] {
      WithoutMeaning(Names(users), listed, w[0]);
      assert w[0] in w;
    } else {
      forall i | 0 <= i < |users| ensures users[i].commonName in listed {
        assert Names(users)[i] in Names(users);
        WithoutMeaning(Names(users), listed, users[i].commonName);
      }
    }
  }

  lemma NothingMismatchedIff(users: seq<DbUser>, listed: seq<string>, files: Files, now: int)
    requires ValidDbUsers(users, now)
    ensures Mismatches(users, listed, files, {}, now) == []
            <==> forall i :: 0 <= i < |users| && users[i].commonName in listed ==>
                   NormalizeCcd(Actual(files, {}, users[i].commonName)) == NormalizeCcd(Expected(users[i], now))
  {
    hide ValidDbUser, Expected, NormalizeCcd, Significant, Mismatches, Actual, Readable;
    var m := Mismatches(users, listed, files, {}, now);
    MismatchesMeaning(users, listed, files, {}, now);
    forall i | 0 <= i < |users|
      ensures Differs(users[i], listed, files, {}, now)
              <==> && users[i].commonName in listed
                   && NormalizeCcd(Actual(files, {}, users[i].commonName)) != NormalizeCcd(Expected(users[i], now))
    {
      SameNormalFormIff(Actual(files, {}, users[i].commonName), Expected(users[i], now));
      ActualIsReadable(files, {}, users[i].commonName);
    }
    if m != [] {
      assert m[0] in m;
    } else {
      forall i | 0 <= i < |users| ensures !Differs(users[i], listed, files, {}, now) {
        var x := Mismatch(users[i].commonName, Expected(users[i], now), Actual(files, {}, users[i].commonName));
        assert x !in m;
      }
    }
  }

  lemma {:induction false} TidyAfterPass(s: State, ccdPath: string, users: seq<DbUser>, writes: seq<Write>, now: int)
    requires |writes| == |users| && ValidDbUsers(users, now) && s.completed && Tidy(s.files)
    requires Reconciled(s, ccdPath, users, writes, now).completed
    requires NoRepeats(Names(users))
    ensures Tidy(Reconciled(s, ccdPath, users, writes, now).files)
  {
    hide ValidDbUser, Reconciled, FileAfter, Trim, ValidCommonName, Shell.ValidServerPath;
    var files := Reconciled(s, ccdPath, users, writes, now).files;
    FilesAfterPass(s, ccdPath, users, writes, now);
    CompletesIff(s, ccdPath, users, writes, now);
    forall name | name in files ensures Trim(name) == name {
      if name in Names(users) {
        var i :| 0 <= i < |users| && Names(users)[i] == name;
        assert Buildable(ccdPath, users[i]);
        ValidNameIsTrimmed(name);
      } else {
        assert Lookup(files, name) == Lookup(s.files, name);
      }
    }
  }

  /** For one user: listed with the expected content. */
  lemma UserIsCleanIff(u: DbUser, write: Write, files: Files, stdout: string, now: int)
    requires ValidDbUser(u, now) && !write.Threw? && ValidCommonName(u.commonName)
    requires Tidy(files) && Shows(stdout, files) && Lookup(files, u.commonName) == FileAfter(u, write, now)
    ensures && u.commonName in ServerFiles(Some(stdout))
            && NormalizeCcd(Actual(files, {}, u.commonName)) == NormalizeCcd(Expected(u, now))
            <==> Visible(u.commonName) && Delivered(u, write, now)
  {
    hide ValidDbUser, Expected, NormalizeCcd, FileAfter, Tidy, Shows, ServerFiles, Delivered, ValidCommonName, Visible;
    ListedIff(stdout, files, u.commonName);
    DeliveredIff(u, write, now);
  }

  /** A detection that follows a completed pass finds nothing missing and nothing
      mismatched exactly when no name is hidden and every write delivered. So when
      every write succeeds only a name that starts with a dot is reported. */
  lemma {:induction false} CleanAfterPassIff(s: State, ccdPath: string, users: seq<DbUser>, writes: seq<Write>, stdout: string, now: int)
    requires |writes| == |users| && ValidDbUsers(users, now) && s.completed && Tidy(s.files)
    requires Reconciled(s, ccdPath, users, writes, now).completed
    requires NoRepeats(Names(users))
    requires Shows(stdout, Reconciled(s, ccdPath, users, writes, now).files)
    ensures var d := Detected(users, Some(stdout), Reconciled(s, ccdPath, users, writes, now).files, {}, now);
            d.missing == [] && d.mismatched == []
            <==> forall i :: 0 <= i < |users| ==> Visible(users[i].commonName) && Delivered(users[i], writes[i], now)
  {
    hide ValidDbUser, Reconciled, FileAfter, Tidy, Shows, ServerFiles, Delivered, Visible, Expected, NormalizeCcd, Actual,
         ValidCommonName, Shell.ValidServerPath, NoRepeats, Mismatches, Without;
    var files := Reconciled(s, ccdPath, users, writes, now).files;
    FilesAfterPass(s, ccdPath, users, writes, now);
    CompletesIff(s, ccdPath, users, writes, now);
    TidyAfterPass(s, ccdPath, users, writes, now);
    var listed := ServerFiles(Some(stdout));
    NothingMissingIff(users, listed);
    NothingMismatchedIff(users, listed, files, now);
    forall i | 0 <= i < |users|
      ensures && users[i].commonName in listed
              && NormalizeCcd(Actual(files, {}, users[i].commonName)) == NormalizeCcd(Expected(users[i], now))
              <==> Visible(users[i].commonName) && Delivered(users[i], writes[i], now)
    {
      assert Buildable(ccdPath, users[i]);
      UserIsCleanIff(users[i], writes[i], files, stdout, now);
    }
  }
}
