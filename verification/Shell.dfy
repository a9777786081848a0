/** Shell quoting: what a POSIX shell makes of the command lines that the portal
    builds. */
module Shell {
  import opened Text
  import opened CommonNames

  // Quoting -----------------------------------------------------------------

  /** Every ' becomes '\''. */
  function ReplaceQuotes(value: string): string {
    if value == [] then []
    else (if value[0] == '\'' then "'\\''" else [value[0]]) + ReplaceQuotes(value[1..])
  }

  function ShellEscape(value: string): string {
    "'" + ReplaceQuotes(value) + "'"
  }

  // The lexer ---------------------------------------------------------------

  datatype Token = Word(text: string) | AndIf

  datatype Mode = Blank | InWord | InQuotes

  /** Characters that stand for themselves outside quotes (section 2.2 of the Shell
      Command Language lists the others). */
  predicate IsLiteral(c: char) {
    IsNameChar(c) || c == '/' || c == ',' || c == ':' || c == '@' || c == '+'
  }

  function Prepend(t: Token, rest: Option<seq<Token>>): Option<seq<Token>> {
    if rest.Some? then Some([t] + rest.value) else None
  }

  /** Token recognition with the quoting rules of sections 2.2.1 (backslash) and
      2.2.2 (single quotes) of the Shell Command Language, and the operator &&.
      No result is given for text that needs any other rule, or that ends inside
      quotes. `word` is what has been read of the current word. */
  function Lex(s: string, mode: Mode, word: string): Option<seq<Token>>
    decreases |s|
  {
    if s == [] then
      match mode
      case Blank => Some([])
      case InWord => Some([Word(word)])
      case InQuotes => None
    else if mode == InQuotes then
      if s[0] == '\'' then Lex(s[1..], InWord, word) else Lex(s[1..], InQuotes, word + [s[0]])
    else if s[0] == '\'' then
      Lex(s[1..], InQuotes, word)
    else if s[0] == '\\' then
      if |s| == 1 then None
      else if s[1] == '\n' then Lex(s[2..], mode, word)
      else Lex(s[2..], InWord, word + [s[1]])
    else if s[0] == ' ' || s[0] == '\t' then
      if mode == Blank then Lex(s[1..], Blank, "")
      else Prepend(Word(word), Lex(s[1..], Blank, ""))
    else if "&&" <= s then
      if mode == Blank then Prepend(AndIf, Lex(s[2..], Blank, ""))
      else Prepend(Word(word), Prepend(AndIf, Lex(s[2..], Blank, "")))
    else if IsLiteral(s[0]) then
      Lex(s[1..], InWord, word + [s[0]])
    else
      None
  }

  function Tokens(line: string): Option<seq<Token>> {
    Lex(line, Blank, "")
  }

  // Command lines as they are built ------------------------------------------

  /** A word is glued together from literal text and escaped values. */
  datatype Piece = Literal(text: string) | Escaped(value: string)

  datatype Item = Pieces(pieces: seq<Piece>) | And

  predicate PlainPiece(p: Piece) {
    p.Literal? ==> p.text != [] && forall i :: 0 <= i < |p.text| ==> IsLiteral(p.text[i])
  }

  predicate PlainItem(item: Item) {
    item.Pieces? ==> item.pieces != [] && forall i :: 0 <= i < |item.pieces| ==> PlainPiece(item.pieces[i])
  }

  function PieceText(p: Piece): string {
    match p
    case Literal(text) => text
    case Escaped(value) => ShellEscape(value)
  }

  function PiecesText(pieces: seq<Piece>): string {
    if pieces == [] then [] else PieceText(pieces[0]) + PiecesText(pieces[1..])
  }

  function ItemText(item: Item): string {
    if item.Pieces? then PiecesText(item.pieces) else "&&"
  }

  /** What a word is meant to be: the values themselves. */
  function PieceValue(p: Piece): string {
    match p
    case Literal(text) => text
    case Escaped(value) => value
  }

  function PiecesValue(pieces: seq<Piece>): string {
    if pieces == [] then [] else PieceValue(pieces[0]) + PiecesValue(pieces[1..])
  }

  function ItemToken(item: Item): Token {
    if item.Pieces? then Word(PiecesValue(item.pieces)) else AndIf
  }

  function Texts(items: seq<Item>): (texts: seq<string>)
    ensures |texts| == |items| && forall i :: 0 <= i < |items| ==> texts[i] == ItemText(items[i])
  {
    seq(|items|, i requires 0 <= i < |items| => ItemText(items[i]))
  }

  function Meant(items: seq<Item>): (tokens: seq<Token>)
    ensures |tokens| == |items| && forall i :: 0 <= i < |items| ==> tokens[i] == ItemToken(items[i])
  {
    seq(|items|, i requires 0 <= i < |items| => ItemToken(items[i]))
  }

  // Lexing undoes building ----------------------------------------------------

  lemma {:induction false} LexQuoted(value: string, rest: string, word: string)
    ensures Lex(ReplaceQuotes(value) + "'" + rest, InQuotes, word) == Lex(rest, InWord, word + value)
  {
    var s := ReplaceQuotes(value) + "'" + rest;
    if value == [] {
      assert s[1..] == rest && word + value == word;
    } else {
      var more := ReplaceQuotes(value[1..]) + "'" + rest;
      LexQuoted(value[1..], rest, word + [value[0]]);
      assert word + [value[0]] + value[1..] == word + value;
      if value[0] == '\'' {
        QuoteSequence(more, word);
        assert s == "'\\''" + more;
      } else {
        assert s == [value[0]] + more && s[1..] == more;
      }
    }
  }

  /** Inside quotes '\'' adds one quote and is inside quotes again. */
  lemma QuoteSequence(more: string, word: string)
    ensures Lex("'\\''" + more, InQuotes, word) == Lex(more, InQuotes, word + ['\''])
  {
    var s := "'\\''" + more;
    assert s[1..] == "\\''" + more && s[1..][2..] == "'" + more && ("'" + more)[1..] == more;
    assert Lex(s[1..], InWord, word) == Lex("'" + more, InWord, word + ['\'']);
  }

  lemma {:induction false} LexLiteral(text: string, rest: string, mode: Mode, word: string)
    requires mode != InQuotes && text != [] && forall i :: 0 <= i < |text| ==> IsLiteral(text[i])
    ensures Lex(text + rest, mode, word) == Lex(rest, InWord, word + text)
  {
    var s := text + rest;
    assert s[0] == text[0] && s[1..] == text[1..] + rest;
    if |text| == 1 {
      assert text[1..] + rest == rest && text == [text[0]];
    } else {
      LexLiteral(text[1..], rest, InWord, word + [text[0]]);
      assert word + [text[0]] + text[1..] == word + text;
    }
  }

  lemma LexPiece(p: Piece, rest: string, mode: Mode, word: string)
    requires mode != InQuotes && PlainPiece(p)
    ensures Lex(PieceText(p) + rest, mode, word) == Lex(rest, InWord, word + PieceValue(p))
  {
    match p {
      case Literal(text) => LexLiteral(text, rest, mode, word);
      case Escaped(value) =>
        var s := ShellEscape(value) + rest;
        assert s[1..] == ReplaceQuotes(value) + "'" + rest;
        LexQuoted(value, rest, word);
    }
  }

  lemma {:induction false} LexPieces(pieces: seq<Piece>, rest: string, mode: Mode, word: string)
    requires mode != InQuotes && pieces != []
    requires forall i :: 0 <= i < |pieces| ==> PlainPiece(pieces[i])
    ensures Lex(PiecesText(pieces) + rest, mode, word) == Lex(rest, InWord, word + PiecesValue(pieces))
  {
    var p, more := pieces[0], pieces[1..];
    hide Lex, PlainPiece, PieceText, PieceValue;
    assert PiecesText(pieces) + rest == PieceText(p) + (PiecesText(more) + rest);
    LexPiece(p, PiecesText(more) + rest, mode, word);
    assert word + PiecesValue(pieces) == word + PieceValue(p) + PiecesValue(more);
    if more == [] {
      assert PiecesText(more) + rest == rest && word + PieceValue(p) + PiecesValue(more) == word + PieceValue(p);
    } else {
      LexPieces(more, rest, InWord, word + PieceValue(p));
    }
  }

  /** A word ends at a blank, or at the end. */
  lemma LexWordEnds(word: string, rest: string)
    ensures Lex(" " + rest, InWord, word) == Prepend(Word(word), Tokens(rest))
    ensures Lex("", InWord, word) == Some([Word(word)])
  {
    assert (" " + rest)[1..] == rest;
  }

  lemma LexBlankFirst(rest: string)
    ensures Tokens(" " + rest) == Tokens(rest)
  {
    assert (" " + rest)[1..] == rest;
  }

  /** An item in front of a blank, or at the end. */
  lemma LexItem(item: Item, rest: string)
    requires PlainItem(item)
    ensures Tokens(ItemText(item) + " " + rest) == Prepend(ItemToken(item), Tokens(rest))
    ensures Tokens(ItemText(item)) == Some([ItemToken(item)])
  {
    if item.Pieces? {
      LexWord(item.pieces, rest);
    } else {
      hide Tokens;
      LexAnd(" " + rest);
      LexAnd("");
      EmptyLine();
      LexBlankFirst(rest);
      assert "&&" + " " + rest == "&&" + (" " + rest) && "&&" + "" == "&&";
      assert [AndIf] + [] == [AndIf];
    }
  }

  lemma LexWord(pieces: seq<Piece>, rest: string)
    requires PlainItem(Pieces(pieces))
    ensures Tokens(PiecesText(pieces) + " " + rest) == Prepend(Word(PiecesValue(pieces)), Tokens(rest))
    ensures Tokens(PiecesText(pieces)) == Some([Word(PiecesValue(pieces))])
  {
    hide Lex, PiecesText, PiecesValue, PlainPiece;
    var text := PiecesText(pieces);
    LexPieces(pieces, " " + rest, Blank, "");
    LexPieces(pieces, "", Blank, "");
    LexWordEnds(PiecesValue(pieces), rest);
    assert text + " " + rest == text + (" " + rest) && text + "" == text;
    assert "" + PiecesValue(pieces) == PiecesValue(pieces);
  }

  lemma LexAnd(rest: string)
    ensures Tokens("&&" + rest) == Prepend(AndIf, Tokens(rest))
  {
    var s := "&&" + rest;
    assert s[..2] == "&&" && s[2..] == rest && s[0] == '&';
  }

  /** For every list of words and operators, however the words are glued together
      from literal text and escaped values: the shell reads back exactly them. */
  lemma {:induction false} LexUndoesBuilding(items: seq<Item>)
    requires forall i :: 0 <= i < |items| ==> PlainItem(items[i])
    ensures Tokens(Join(Texts(items), " ")) == Some(Meant(items))
  {
    hide Tokens, PlainItem, ItemText, ItemToken;
    if items == [] {
      EmptyLine();
      assert Meant(items) == [];
    } else {
      var more := items[1..];
      assert Texts(items)[1..] == Texts(more);
      assert Meant(items) == [ItemToken(items[0])] + Meant(more);
      LexItem(items[0], Join(Texts(more), " "));
      LexUndoesBuilding(more);
      if more == [] {
        assert Meant(items) == [ItemToken(items[0])];
      } else {
        assert Join(Texts(items), " ") == ItemText(items[0]) + " " + Join(Texts(more), " ");
      }
    }
  }

  lemma EmptyLine()
    ensures Tokens("") == Some([])
  {
  }

  /** In particular for any strings at all, each escaped and then joined by blanks. */
  lemma {:induction false} EscapedWordsAreReadBack(values: seq<string>)
    ensures Tokens(Join(seq(|values|, i requires 0 <= i < |values| => ShellEscape(values[i])), " "))
            == Some(seq(|values|, i requires 0 <= i < |values| => Word(values[i])))
  {
    hide Tokens, ShellEscape;
    var items := seq(|values|, i requires 0 <= i < |values| => Pieces([Escaped(values[i])]));
    forall i | 0 <= i < |values| ensures Texts(items)[i] == ShellEscape(values[i]) && Meant(items)[i] == Word(values[i]) {
      OnePiece(values[i]);
    }
    LexUndoesBuilding(items);
    assert Texts(items) == seq(|values|, i requires 0 <= i < |values| => ShellEscape(values[i]));
    assert Meant(items) == seq(|values|, i requires 0 <= i < |values| => Word(values[i]));
  }

  lemma OnePiece(value: string)
    ensures ItemText(Pieces([Escaped(value)])) == ShellEscape(value)
    ensures ItemToken(Pieces([Escaped(value)])) == Word(value)
  {
    var p := [Escaped(value)];
    assert PiecesText(p) == ShellEscape(value) + PiecesText(p[1..]);
    assert PiecesValue(p) == value + PiecesValue(p[1..]);
  }

  lemma EscapedIsOneWord(value: string)
    ensures Tokens(ShellEscape(value)) == Some([Word(value)])
  {
    hide Tokens, ShellEscape;
    OnePiece(value);
    LexItem(Pieces([Escaped(value)]), "");
  }

  // The command builders ----------------------------------------------------

  predicate IsPathChar(c: char) {
    IsNameChar(c) || c == '/'
  }

  predicate ValidServerPath(path: string) {
    && 2 <= |path| <= 255 && path[0] == '/'
    && (forall i :: 0 <= i < |path| ==> IsPathChar(path[i]))
    && !HasTwoDots(path)
  }

  /** A valid path starts with a slash, has 2 to 255 name characters and slashes, and is
      not put together around "..". */
  lemma ValidPathIff(path: string)
    ensures ValidServerPath(path)
            <==> && "/" <= path && 2 <= |path| <= 255 && (forall c :: c in path ==> NameCode(c as int) || c as int == 47)
                 && !exists a, b :: path == a + ".." + b
  {
    TwoDotsIff(path);
    hide HasTwoDots;
    if forall c :: c in path ==> NameCode(c as int) || c as int == 47 {
      forall i | 0 <= i < |path| ensures IsPathChar(path[i]) {
        assert path[i] in path;
      }
    }
  }

  function BuildCatCommand(path: string): string {
    "cat " + ShellEscape(path)
  }

  function BuildReadCcdCommand(ccdPath: string, commonName: string): Option<string> {
    if !ValidServerPath(ccdPath) then None
    else if !ValidCommonName(commonName) then None
    else Some(BuildCatCommand(ccdPath + "/" + commonName))
  }

  function BuildListDirectoryCommand(path: string): Option<string> {
    if !ValidServerPath(path) then None else Some("ls -1 " + ShellEscape(path) + "/")
  }

  function BuildRemoveFileCommand(path: string): string {
    "rm -f " + ShellEscape(path)
  }

  function RemoveFile(dir: string, escaped: string, extension: string): string {
    "rm -f " + dir + escaped + extension
  }

  function BuildClientArtifactCleanupCommand(commonName: string): string {
    var escaped := ShellEscape(commonName);
    Join([RemoveFile("pki/reqs/", escaped, ".req"),
          RemoveFile("pki/private/", escaped, ".key"),
          RemoveFile("pki/issued/", escaped, ".crt"),
          RemoveFile("pki/inline/", escaped, ".inline")], " && ")
  }

  /** The words a shell runs for each command; a builder that refuses its input
      builds nothing. */
  lemma {:induction false} CommandsMean(path: string, commonName: string)
    ensures BuildReadCcdCommand(path, commonName).Some? <==> ValidServerPath(path) && ValidCommonName(commonName)
    ensures BuildReadCcdCommand(path, commonName).Some?
            ==> Tokens(BuildReadCcdCommand(path, commonName).value) == Some([Word("cat"), Word(path + "/" + commonName)])
    ensures BuildListDirectoryCommand(path).Some? <==> ValidServerPath(path)
    ensures BuildListDirectoryCommand(path).Some?
            ==> Tokens(BuildListDirectoryCommand(path).value) == Some([Word("ls"), Word("-1"), Word(path + "/")])
    ensures Tokens(BuildRemoveFileCommand(path)) == Some([Word("rm"), Word("-f"), Word(path)])
  {
    hide *;
    ReadMeans(path, commonName);
    ListMeans(path);
    RemoveMeans(path);
  }

  lemma ReadMeans(path: string, commonName: string)
    ensures BuildReadCcdCommand(path, commonName).Some? <==> ValidServerPath(path) && ValidCommonName(commonName)
    ensures BuildReadCcdCommand(path, commonName).Some?
            ==> Tokens(BuildReadCcdCommand(path, commonName).value) == Some([Word("cat"), Word(path + "/" + commonName)])
  {
    hide Tokens, ShellEscape, ValidServerPath, ValidCommonName;
    var x := path + "/" + commonName;
    TwoWords("cat", x);
    assert BuildCatCommand(x) == "cat" + " " + ShellEscape(x);
  }

  lemma ListMeans(path: string)
    ensures BuildListDirectoryCommand(path).Some? <==> ValidServerPath(path)
    ensures BuildListDirectoryCommand(path).Some?
            ==> Tokens(BuildListDirectoryCommand(path).value) == Some([Word("ls"), Word("-1"), Word(path + "/")])
  {
    hide Tokens, ShellEscape, ValidServerPath;
    ThreeWords("ls", "-1", [Escaped(path), Literal("/")]);
    GluedPieces([], path, "/");
    assert Glue([], path, "/") == [Escaped(path), Literal("/")];
    assert "ls -1 " + ShellEscape(path) + "/" == "ls" + " " + "-1" + " " + ([] + ShellEscape(path) + "/");
    assert [] + path + "/" == path + "/";
  }

  lemma RemoveMeans(path: string)
    ensures Tokens(BuildRemoveFileCommand(path)) == Some([Word("rm"), Word("-f"), Word(path)])
  {
    hide Tokens, ShellEscape;
    ThreeWords("rm", "-f", [Escaped(path)]);
    OnePiece(path);
    assert BuildRemoveFileCommand(path) == "rm" + " " + "-f" + " " + ShellEscape(path);
  }

  lemma TwoWords(a: string, value: string)
    requires PlainPiece(Literal(a))
    ensures Tokens(a + " " + ShellEscape(value)) == Some([Word(a), Word(value)])
  {
    hide Tokens, ShellEscape;
    var items := [Pieces([Literal(a)]), Pieces([Escaped(value)])];
    OneLiteral(a);
    OnePiece(value);
    LexUndoesBuilding(items);
    assert Texts(items) == [a, ShellEscape(value)];
    assert Meant(items) == [Word(a), Word(value)];
    assert Texts(items)[1..] == [ShellEscape(value)];
  }

  lemma OneLiteral(a: string)
    ensures ItemText(Pieces([Literal(a)])) == a && ItemToken(Pieces([Literal(a)])) == Word(a)
  {
    var p := [Literal(a)];
    assert PiecesText(p) == a + PiecesText(p[1..]);
    assert PiecesValue(p) == a + PiecesValue(p[1..]);
  }

  lemma ThreeWords(a: string, b: string, pieces: seq<Piece>)
    requires PlainPiece(Literal(a)) && PlainPiece(Literal(b)) && PlainItem(Pieces(pieces))
    ensures Tokens(a + " " + b + " " + PiecesText(pieces)) == Some([Word(a), Word(b), Word(PiecesValue(pieces))])
  {
    hide Tokens, PiecesText, PiecesValue, PlainPiece;
    var items := [Pieces([Literal(a)]), Pieces([Literal(b)]), Pieces(pieces)];
    OneLiteral(a);
    OneLiteral(b);
    LexUndoesBuilding(items);
    var x := PiecesText(pieces);
    assert Texts(items) == [a, b, x];
    assert [a, b, x][1..] == [b, x] && [b, x][1..] == [x];
    assert Join([b, x], " ") == b + " " + x;
    assert a + " " + (b + " " + x) == a + " " + b + " " + x;
    assert Meant(items) == [Word(a), Word(b), Word(PiecesValue(pieces))];
  }

  function Glue(before: string, value: string, after: string): seq<Piece> {
    (if before == [] then [] else [Literal(before)]) + [Escaped(value)] + (if after == [] then [] else [Literal(after)])
  }

  lemma GluedPieces(before: string, value: string, after: string)
    ensures PiecesText(Glue(before, value, after)) == before + ShellEscape(value) + after
    ensures PiecesValue(Glue(before, value, after)) == before + value + after
  {
    hide ShellEscape, PiecesText, PiecesValue;
    var tail := if after == [] then [] else [Literal(after)];
    NoPieces();
    if after != [] {
      FirstPiece(Literal(after), []);
      assert [Literal(after)] + [] == tail && after + "" == after;
    }
    FirstPiece(Escaped(value), tail);
    var q := [Escaped(value)] + tail;
    var p := Glue(before, value, after);
    Associative(before, ShellEscape(value), after);
    Associative(before, value, after);
    if before == [] {
      assert p == q;
    } else {
      FirstPiece(Literal(before), q);
      assert p == [Literal(before)] + q;
    }
  }

  lemma Associative(a: string, b: string, c: string)
    ensures a + (b + c) == a + b + c
    ensures a == [] ==> a + b + c == b + c
  {
  }

  lemma NoPieces()
    ensures PiecesText([]) == "" && PiecesValue([]) == ""
  {
  }

  lemma FirstPiece(p: Piece, rest: seq<Piece>)
    ensures PiecesText([p] + rest) == PieceText(p) + PiecesText(rest)
    ensures PiecesValue([p] + rest) == PieceValue(p) + PiecesValue(rest)
  {
    assert ([p] + rest)[1..] == rest;
  }

  function RemovalTokens(dir: string, commonName: string, extension: string): seq<Token> {
    [Word("rm"), Word("-f"), Word(dir + commonName + extension)]
  }

  /** The clean-up of a client's files: four removals, each of one file whose name
      has the common name glued in, for any common name at all. */
  lemma {:induction false} CleanupMeans(commonName: string)
    ensures Tokens(BuildClientArtifactCleanupCommand(commonName))
            == Some(RemovalTokens("pki/reqs/", commonName, ".req") + [AndIf]
                    + (RemovalTokens("pki/private/", commonName, ".key") + [AndIf]
                       + (RemovalTokens("pki/issued/", commonName, ".crt") + [AndIf]
                          + RemovalTokens("pki/inline/", commonName, ".inline"))))
  {
    hide *;
    PartsArePlain();
    RemovalText("pki/reqs/", commonName, ".req");
    RemovalText("pki/private/", commonName, ".key");
    RemovalText("pki/issued/", commonName, ".crt");
    RemovalText("pki/inline/", commonName, ".inline");
    var certs := Chained(Removal("pki/issued/", commonName, ".crt"), Removal("pki/inline/", commonName, ".inline"));
    var keys := Chained(Removal("pki/private/", commonName, ".key"), certs);
    var items := Chained(Removal("pki/reqs/", commonName, ".req"), keys);
    LexUndoesBuilding(items);
    var e := ShellEscape(commonName);
    JoinOfFour(RemoveFile("pki/reqs/", e, ".req"), RemoveFile("pki/private/", e, ".key"),
               RemoveFile("pki/issued/", e, ".crt"), RemoveFile("pki/inline/", e, ".inline"), " && ");
    CleanupText(commonName);
  }

  lemma CleanupText(commonName: string)
    ensures var e := ShellEscape(commonName);
            BuildClientArtifactCleanupCommand(commonName)
            == Join([RemoveFile("pki/reqs/", e, ".req"), RemoveFile("pki/private/", e, ".key"),
                     RemoveFile("pki/issued/", e, ".crt"), RemoveFile("pki/inline/", e, ".inline")], " && ")
  {
    hide ShellEscape, Join, RemoveFile;
  }

  lemma PartsArePlain()
    ensures PlainPiece(Literal("pki/reqs/")) && PlainPiece(Literal(".req"))
    ensures PlainPiece(Literal("pki/private/")) && PlainPiece(Literal(".key"))
    ensures PlainPiece(Literal("pki/issued/")) && PlainPiece(Literal(".crt"))
    ensures PlainPiece(Literal("pki/inline/")) && PlainPiece(Literal(".inline"))
  {
  }

  /** Two command lines with && between them. */
  lemma Chained(a: seq<Item>, b: seq<Item>) returns (items: seq<Item>)
    requires a != [] && b != []
    requires (forall i :: 0 <= i < |a| ==> PlainItem(a[i])) && (forall i :: 0 <= i < |b| ==> PlainItem(b[i]))
    ensures items != [] && forall i :: 0 <= i < |items| ==> PlainItem(items[i])
    ensures Join(Texts(items), " ") == Join(Texts(a), " ") + " && " + Join(Texts(b), " ")
    ensures Meant(items) == Meant(a) + [AndIf] + Meant(b)
  {
    hide PlainItem;
    AndIsPlain();
    items := a + [And] + b;
    AndText(a, b);
    AndMeans(a, b);
  }

  function Removal(dir: string, commonName: string, extension: string): seq<Item> {
    [Pieces([Literal("rm")]), Pieces([Literal("-f")]), Pieces(Glue(dir, commonName, extension))]
  }

  lemma AndIsPlain()
    ensures PlainItem(And)
  {
  }

  lemma RemovalText(dir: string, commonName: string, extension: string)
    requires PlainPiece(Literal(dir)) && PlainPiece(Literal(extension))
    ensures Removal(dir, commonName, extension) != []
    ensures Join(Texts(Removal(dir, commonName, extension)), " ") == RemoveFile(dir, ShellEscape(commonName), extension)
    ensures Meant(Removal(dir, commonName, extension)) == RemovalTokens(dir, commonName, extension)
    ensures forall i :: 0 <= i < |Removal(dir, commonName, extension)| ==> PlainItem(Removal(dir, commonName, extension)[i])
  {
    hide ShellEscape, PiecesText, PiecesValue;
    var items := Removal(dir, commonName, extension);
    OneLiteral("rm");
    OneLiteral("-f");
    GluedPieces(dir, commonName, extension);
    var x := dir + ShellEscape(commonName) + extension;
    assert Texts(items) == ["rm", "-f", x];
    assert ["rm", "-f", x][1..] == ["-f", x] && ["-f", x][1..] == [x];
    assert Join(["-f", x], " ") == "-f" + " " + x;
    assert "rm" + " " + ("-f" + " " + x) == "rm -f " + dir + ShellEscape(commonName) + extension;
  }

  lemma AndText(a: seq<Item>, b: seq<Item>)
    requires a != [] && b != []
    ensures Join(Texts(a + [And] + b), " ") == Join(Texts(a), " ") + " && " + Join(Texts(b), " ")
  {
    hide ItemText;
    AndIs();
    assert Texts(a + [And] + b) == Texts(a) + (["&&"] + Texts(b));
    JoinOfSum(Texts(a), ["&&"] + Texts(b), " ");
    JoinOfSum(["&&"], Texts(b), " ");
    var x, y := Join(Texts(a), " "), Join(Texts(b), " ");
    assert x + " " + ("&&" + " " + y) == x + " && " + y;
  }

  lemma AndIs()
    ensures ItemText(And) == "&&" && ItemToken(And) == AndIf
  {
  }

  lemma AndMeans(a: seq<Item>, b: seq<Item>)
    ensures Meant(a + [And] + b) == Meant(a) + [AndIf] + Meant(b)
  {
    hide ItemToken;
    AndIs();
  }

  lemma {:induction false} JoinOfSum(a: seq<string>, b: seq<string>, sep: string)
    requires a != [] && b != []
    ensures Join(a + b, sep) == Join(a, sep) + sep + Join(b, sep)
  {
    if |a| == 1 {
      assert (a + b)[1..] == b;
    } else {
      JoinOfSum(a[1..], b, sep);
      assert (a + b)[1..] == a[1..] + b;
      var x, y := Join(a[1..], sep), Join(b, sep);
      assert a[0] + sep + (x + sep + y) == a[0] + sep + x + sep + y;
    }
  }
}
