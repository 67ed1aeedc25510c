/**
 Quoting of the command ssh runs remotely (src/net/ssh.rs), against the token and quoting rules of the
 shell (sections 2.2 and 2.3 of the POSIX Shell Command Language).
 */
module ShellQuote {
  import opened Wrappers

  // ---------------------------------------------------------------- the shell's view of a line

  // Operators are kept one character at a time.
  datatype Token = Word(text: string) | Operator(c: char)

  datatype Mode = Plain | Single | Double

  predicate IsOperator(c: char) {
    c == ';' || c == '&' || c == '|' || c == '<' || c == '>' || c == '(' || c == ')' || c == '\n'
  }

  predicate IsBlank(c: char) { c == ' ' || c == '\t' }

  // Characters that call for an expansion when not quoted; a line that has one is not modelled.
  predicate Expands(c: char) {
    c == '$' || c == '`' || c == '*' || c == '?' || c == '[' || c == '~' || c == '#'
  }

  predicate Ordinary(c: char) {
    !IsOperator(c) && !IsBlank(c) && !Expands(c) && c != '\'' && c != '"' && c != '\\'
  }

  function Add(word: Option<string>, text: string): Option<string> {
    if word.Some? then Some(word.value + text) else Some(text)
  }

  function Ended(word: Option<string>): seq<Token> {
    if word.Some? then [Word(word.value)] else []
  }

  function Prepend(tokens: seq<Token>, rest: Option<seq<Token>>): Option<seq<Token>> {
    if rest.Some? then Some(tokens + rest.value) else None
  }

  // The tokens of `s` when `word` is under way; None if a quote stays open or an expansion is needed.
  function Lex(s: string, mode: Mode, word: Option<string>): Option<seq<Token>>
    decreases |s|
  {
    if s == "" then (if mode == Plain then Some(Ended(word)) else None)
    else
      var c, rest := s[0], s[1..];
      match mode
      case Single => if c == '\'' then Lex(rest, Plain, word) else Lex(rest, Single, Add(word, [c]))
      case Double =>
        if c == '"' then Lex(rest, Plain, word)
        else if c == '$' || c == '`' then None
        else if c == '\\' && rest != "" && rest[0] == '\n' then Lex(rest[1..], Double, word)
        else if c == '\\' && rest != "" && rest[0] in "$`\"\\" then Lex(rest[1..], Double, Add(word, [rest[0]]))
        else Lex(rest, Double, Add(word, [c]))
      case Plain =>
        if c == '\'' then Lex(rest, Single, Add(word, ""))
        else if c == '"' then Lex(rest, Double, Add(word, ""))
        else if c == '\\' then
          if rest == "" then None
          else if rest[0] == '\n' then Lex(rest[1..], Plain, word)
          else Lex(rest[1..], Plain, Add(word, [rest[0]]))
        else if IsBlank(c) then Prepend(Ended(word), Lex(rest, Plain, None))
        else if IsOperator(c) then Prepend(Ended(word) + [Operator(c)], Lex(rest, Plain, None))
        else if Expands(c) then None
        else Lex(rest, Plain, Add(word, [c]))
  }

  function Tokens(line: string): Option<seq<Token>> {
    Lex(line, Plain, None)
  }

  // ---------------------------------------------------------------- shell_quote

  // Each single quote is closed over, escaped and reopened.
  function Escaped(s: string): string {
    if s == "" then ""
    else (if s[0] == '\'' then "'\\''" else [s[0]]) + Escaped(s[1..])
  }

  function Quoted(s: string): string {
    "'" + Escaped(s) + "'"
  }

  lemma {:induction false} QuotedBody(s: string, rest: string, word: string)
    ensures Lex(Escaped(s) + "'" + rest, Single, Some(word)) == Lex(rest, Plain, Some(word + s))
    decreases |s|
  {
    if s == "" {
      assert (Escaped(s) + "'" + rest)[1..] == rest;
      assert word + s == word;
    } else {
      var tail := Escaped(s[1..]) + "'" + rest;
      QuotedBody(s[1..], rest, word + [s[0]]);
      assert word + s == word + [s[0]] + s[1..];
      if s[0] == '\'' {
        ClosedOver(tail, word);
        assert Escaped(s) + "'" + rest == "'\\''" + tail;
      } else {
        var line := Escaped(s) + "'" + rest;
        assert line == [s[0]] + tail && line[1..] == tail;
      }
    }
  }

  // Inside single quotes, '\'' stands for one single quote.
  lemma ClosedOver(tail: string, word: string)
    ensures Lex("'\\''" + tail, Single, Some(word)) == Lex(tail, Single, Some(word + "'"))
  {
    var a := "'\\''" + tail;
    var b := a[1..];
    assert b == "\\''" + tail;
    var c := b[2..];
    assert c == "'" + tail && c[1..] == tail;
    assert b[1..][1..] == c;
    assert Lex(a, Single, Some(word)) == Lex(b, Plain, Some(word));
    assert Lex(b, Plain, Some(word)) == Lex(c, Plain, Some(word + "'"));
    assert word + "'" + "" == word + "'";
  }

  // Wherever it stands on a line, a quoted string is read as exactly its text, added to the word
  // under way: no blank, operator, quote or expansion in it means anything.
  lemma QuotedIsLiteral(s: string, rest: string, word: Option<string>)
    ensures Lex(Quoted(s) + rest, Plain, word) == Lex(rest, Plain, Add(word, s))
  {
    var line := Quoted(s) + rest;
    assert line[1..] == Escaped(s) + "'" + rest;
    var sofar := if word.Some? then word.value else "";
    assert Add(word, "") == Some(sofar) by { assert sofar + "" == sofar; }
    assert Add(word, s) == Some(sofar + s) by { assert "" + s == s; }
    QuotedBody(s, rest, sofar);
  }

  lemma QuotedIsOneWord(s: string)
    ensures Tokens(Quoted(s)) == Some([Word(s)])
  {
    assert Quoted(s) + "" == Quoted(s);
    QuotedIsLiteral(s, "", None);
  }

  // ---------------------------------------------------------------- remote_command

  // A script in small pieces; the text of each is what `PieceText` says.
  datatype Piece =
    | Spaced(word: string)             // a plain word and a blank
    | InQuotes(word: string)           // a word in double quotes and a blank
    | Closed(word: string, op: char)   // a plain word right before an operator
    | Sign(op: char)
    | Blank

  function PieceText(p: Piece): string {
    match p
    case Spaced(word) => word + " "
    case InQuotes(word) => "\"" + word + "\" "
    case Closed(word, op) => word + [op]
    case Sign(op) => [op]
    case Blank => " "
  }

  function PieceTokens(p: Piece): seq<Token> {
    match p
    case Spaced(word) => [Word(word)]
    case InQuotes(word) => [Word(word)]
    case Closed(word, op) => [Word(word), Operator(op)]
    case Sign(op) => [Operator(op)]
    case Blank => []
  }

  function Text(pieces: seq<Piece>): string {
    if pieces == [] then "" else PieceText(pieces[0]) + Text(pieces[1..])
  }

  function AllTokens(pieces: seq<Piece>): seq<Token> {
    if pieces == [] then [] else PieceTokens(pieces[0]) + AllTokens(pieces[1..])
  }

  // if command -v "xpra" > /dev/null 2>&1; then
  const GUARD: seq<Piece> := [
    Spaced("if"), Spaced("command"), Spaced("-v"), InQuotes("xpra"), Sign('>'), Blank, Spaced("/dev/null"),
    Closed("2", '>'), Sign('&'), Closed("1", ';'), Blank, Spaced("then")]

  // ; else echo "no xpra command found" 1>&2; exit 1; fi
  const FALLBACK: seq<Piece> := [
    Sign(';'), Blank, Spaced("else"), Spaced("echo"), InQuotes("no xpra command found"),
    Closed("1", '>'), Sign('&'), Closed("2", ';'), Blank, Spaced("exit"), Closed("1", ';'), Blank]

  function ProxyCommand(display: string): string {
    if display == "" then "xpra _proxy" else "xpra _proxy " + Quoted(display)
  }

  function Inner(display: string): string {
    Text(GUARD) + (ProxyCommand(display) + (Text(FALLBACK) + "fi"))
  }

  function RemoteCommand(display: string): string {
    "sh -c " + Quoted(Inner(display))
  }

  lemma Joined(p: Piece, rest: seq<Piece>)
    ensures Text([p] + rest) == PieceText(p) + Text(rest)
  {
    assert ([p] + rest)[1..] == rest;
  }

  // The script around the proxy command, spelled out.
  lemma GuardText()
    ensures Text(GUARD) ==
            "if " + ("command " + ("-v " + ("\"" + "xpra" + "\" " + (">" + (" " + ("/dev/null " + ("2>" + ("&" +
            ("1;" + (" " + ("then " + "")))))))))))
  {
    hide Text;
    NoText();
    InQuotesText("xpra");
    var p12: seq<Piece> := [];
    var p11 := [Spaced("then")] + p12;
    Joined(Spaced("then"), p12);
    var p10 := [Blank] + p11;
    Joined(Blank, p11);
    var p9 := [Closed("1", ';')] + p10;
    Joined(Closed("1", ';'), p10);
    var p8 := [Sign('&')] + p9;
    Joined(Sign('&'), p9);
    var p7 := [Closed("2", '>')] + p8;
    Joined(Closed("2", '>'), p8);
    var p6 := [Spaced("/dev/null")] + p7;
    Joined(Spaced("/dev/null"), p7);
    var p5 := [Blank] + p6;
    Joined(Blank, p6);
    var p4 := [Sign('>')] + p5;
    Joined(Sign('>'), p5);
    var p3 := [InQuotes("xpra")] + p4;
    Joined(InQuotes("xpra"), p4);
    var p2 := [Spaced("-v")] + p3;
    Joined(Spaced("-v"), p3);
    var p1 := [Spaced("command")] + p2;
    Joined(Spaced("command"), p2);
    var p0 := [Spaced("if")] + p1;
    Joined(Spaced("if"), p1);
    assert GUARD == p0;
  }

  lemma NoText()
    ensures Text([]) == ""
  {
  }

  lemma InQuotesText(word: string)
    ensures PieceText(InQuotes(word)) == "\"" + word + "\" "
  {
  }

  lemma FallbackEnd()
    ensures Text([Closed("1", '>'), Sign('&'), Closed("2", ';'), Blank, Spaced("exit"), Closed("1", ';'), Blank]) ==
            "1>" + ("&" + ("2;" + (" " + ("exit " + ("1;" + (" " + ""))))))
  {
    hide Text;
    NoText();
    var p7: seq<Piece> := [];
    Joined(Blank, p7);
    var p6 := [Blank] + p7;
    Joined(Closed("1", ';'), p6);
    var p5 := [Closed("1", ';')] + p6;
    Joined(Spaced("exit"), p5);
    var p4 := [Spaced("exit")] + p5;
    Joined(Blank, p4);
    var p3 := [Blank] + p4;
    Joined(Closed("2", ';'), p3);
    var p2 := [Closed("2", ';')] + p3;
    Joined(Sign('&'), p2);
    var p1 := [Sign('&')] + p2;
    Joined(Closed("1", '>'), p1);
    assert [Closed("1", '>')] + p1 ==
           [Closed("1", '>'), Sign('&'), Closed("2", ';'), Blank, Spaced("exit"), Closed("1", ';'), Blank];
  }

  lemma FallbackText()
    ensures Text(FALLBACK) ==
            ";" + (" " + ("else " + ("echo " + ("\"" + "no xpra command found" + "\" " + ("1>" + ("&" + ("2;" + (" " +
            ("exit " + ("1;" + (" " + "")))))))))))
  {
    hide Text;
    FallbackEnd();
    InQuotesText("no xpra command found");
    var end := [Closed("1", '>'), Sign('&'), Closed("2", ';'), Blank, Spaced("exit"), Closed("1", ';'), Blank];
    Joined(InQuotes("no xpra command found"), end);
    var p3 := [InQuotes("no xpra command found")] + end;
    Joined(Spaced("echo"), p3);
    var p2 := [Spaced("echo")] + p3;
    Joined(Spaced("else"), p2);
    var p1 := [Spaced("else")] + p2;
    Joined(Blank, p1);
    var p0 := [Blank] + p1;
    Joined(Sign(';'), p0);
    assert FALLBACK == [Sign(';')] + p0;
  }

  // The whole command: the script in single quotes, and in it the display, if any, in its own.
  lemma CommandText(display: string)
    ensures RemoteCommand(display) == "sh -c " + ("'" + Escaped(Inner(display)) + "'")
    ensures Inner("") == Text(GUARD) + ("xpra _proxy" + (Text(FALLBACK) + "fi"))
    ensures display != "" ==>
              Inner(display) == Text(GUARD) + ("xpra _proxy " + ("'" + Escaped(display) + "'") + (Text(FALLBACK) + "fi"))
  {
    hide Escaped, Text;
  }

  // A plain word and the blank after it.
  lemma {:induction false} OrdinaryRun(a: string, rest: string, word: Option<string>)
    requires a != "" && forall c <- a :: Ordinary(c)
    ensures Lex(a + rest, Plain, word) == Lex(rest, Plain, Add(word, a))
    decreases |a|
  {
    assert (a + rest)[1..] == a[1..] + rest;
    assert a == [a[0]] + a[1..];
    assert a[0] in a && Ordinary(a[0]);
    var next := Add(word, [a[0]]);
    assert Lex(a + rest, Plain, word) == Lex(a[1..] + rest, Plain, next);
    if |a| > 1 {
      OrdinaryRun(a[1..], rest, next);
      if word.Some? { assert word.value + [a[0]] + a[1..] == word.value + a; }
    } else {
      assert a[1..] + rest == rest && a == [a[0]];
    }
  }

  lemma WordThenBlank(a: string, rest: string)
    requires a != "" && forall c <- a :: Ordinary(c)
    ensures Tokens(a + " " + rest) == Prepend([Word(a)], Tokens(rest))
  {
    assert a + " " + rest == a + (" " + rest);
    OrdinaryRun(a, " " + rest, None);
    assert (" " + rest)[1..] == rest;
  }

  lemma WordThenOperator(a: string, op: char, rest: string)
    requires a != "" && (forall c <- a :: Ordinary(c)) && IsOperator(op) && !IsBlank(op)
    ensures Tokens(a + [op] + rest) == Prepend([Word(a), Operator(op)], Tokens(rest))
  {
    assert a + [op] + rest == a + ([op] + rest);
    OrdinaryRun(a, [op] + rest, None);
    assert ([op] + rest)[1..] == rest;
    assert Ended(Some(a)) + [Operator(op)] == [Word(a), Operator(op)];
  }

  lemma OperatorFirst(op: char, rest: string)
    requires IsOperator(op) && !IsBlank(op)
    ensures Tokens([op] + rest) == Prepend([Operator(op)], Tokens(rest))
  {
    assert ([op] + rest)[1..] == rest;
    assert Ended(None) + [Operator(op)] == [Operator(op)];
  }

  lemma BlankFirst(rest: string)
    ensures Tokens(" " + rest) == Tokens(rest)
  {
    assert (" " + rest)[1..] == rest;
    if Tokens(rest).Some? { assert [] + Tokens(rest).value == Tokens(rest).value; }
  }

  // A word in double quotes, with nothing in it that double quotes leave special.
  lemma {:induction false} DoubleBody(a: string, rest: string, word: string)
    requires forall c <- a :: c != '"' && c != '$' && c != '`' && c != '\\'
    ensures Lex(a + "\"" + rest, Double, Some(word)) == Lex(rest, Plain, Some(word + a))
    decreases |a|
  {
    var line := a + "\"" + rest;
    if a == "" {
      assert line[1..] == rest && word + a == word;
    } else {
      assert a[0] in a && forall c <- a[1..] :: c in a;
      assert line[1..] == a[1..] + "\"" + rest;
      assert word + [a[0]] + a[1..] == word + a;
      DoubleBody(a[1..], rest, word + [a[0]]);
    }
  }

  lemma DoubleThenBlank(a: string, rest: string)
    requires forall c <- a :: c != '"' && c != '$' && c != '`' && c != '\\'
    ensures Tokens("\"" + a + "\" " + rest) == Prepend([Word(a)], Tokens(rest))
  {
    var line := "\"" + a + "\" " + rest;
    assert line[1..] == a + "\"" + (" " + rest);
    DoubleBody(a, " " + rest, "");
    assert "" + a == a;
    assert (" " + rest)[1..] == rest;
  }

  predicate GoodPiece(p: Piece) {
    match p
    case Spaced(word) => word != "" && forall c <- word :: Ordinary(c)
    case InQuotes(word) => forall c <- word :: c != '"' && c != '$' && c != '`' && c != '\\'
    case Closed(word, op) => word != "" && (forall c <- word :: Ordinary(c)) && IsOperator(op)
    case Sign(op) => IsOperator(op)
    case Blank => true
  }

  lemma PieceReads(p: Piece, rest: string)
    requires GoodPiece(p)
    ensures Tokens(PieceText(p) + rest) == Prepend(PieceTokens(p), Tokens(rest))
  {
    match p
    case Spaced(word) => WordThenBlank(word, rest);
    case InQuotes(word) => DoubleThenBlank(word, rest);
    case Closed(word, op) => WordThenOperator(word, op, rest);
    case Sign(op) => OperatorFirst(op, rest);
    case Blank =>
      BlankFirst(rest);
      if Tokens(rest).Some? { assert [] + Tokens(rest).value == Tokens(rest).value; }
  }

  // A script's pieces are read one after another, and leave nothing over for what follows.
  lemma {:induction false} PiecesRead(pieces: seq<Piece>, rest: string)
    requires forall i :: 0 <= i < |pieces| ==> GoodPiece(pieces[i])
    ensures Tokens(Text(pieces) + rest) == Prepend(AllTokens(pieces), Tokens(rest))
  {
    hide PieceText, PieceTokens, Tokens, GoodPiece;
    if pieces == [] {
      assert Text(pieces) + rest == rest;
      if Tokens(rest).Some? { assert [] + Tokens(rest).value == Tokens(rest).value; }
    } else {
      var tail := Text(pieces[1..]) + rest;
      assert Text(pieces) + rest == PieceText(pieces[0]) + tail;
      PieceReads(pieces[0], tail);
      PiecesRead(pieces[1..], rest);
      if Tokens(rest).Some? {
        assert PieceTokens(pieces[0]) + (AllTokens(pieces[1..]) + Tokens(rest).value) ==
               AllTokens(pieces) + Tokens(rest).value;
      }
    }
  }

  lemma GoodSpaced(word: string)
    requires word != "" && forall c <- word :: Ordinary(c)
    ensures GoodPiece(Spaced(word))
  {
  }

  lemma GoodWords()
    ensures GoodPiece(Spaced("if")) && GoodPiece(Spaced("then")) && GoodPiece(Spaced("else"))
    ensures GoodPiece(Spaced("echo")) && GoodPiece(Spaced("exit"))
  {
    hide GoodPiece;
    GoodSpaced("if");
    GoodSpaced("then");
    GoodSpaced("else");
    GoodSpaced("echo");
    GoodSpaced("exit");
  }

  lemma GoodLongWords()
    ensures GoodPiece(Spaced("command")) && GoodPiece(Spaced("-v")) && GoodPiece(Spaced("/dev/null"))
  {
    hide GoodPiece;
    GoodSpaced("command");
    GoodSpaced("-v");
    GoodSpaced("/dev/null");
  }

  lemma GoodDoubles()
    ensures GoodPiece(InQuotes("xpra")) && GoodPiece(InQuotes("no xpra command found"))
  {
    hide GoodPiece;
    GoodInQuotes("xpra");
    GoodInQuotes("no xpra command found");
  }

  lemma GoodInQuotes(word: string)
    requires forall c <- word :: c != '"' && c != '$' && c != '`' && c != '\\'
    ensures GoodPiece(InQuotes(word))
  {
  }

  lemma GoodSigns()
    ensures GoodPiece(Closed("1", '>')) && GoodPiece(Closed("2", '>'))
    ensures GoodPiece(Closed("1", ';')) && GoodPiece(Closed("2", ';'))
    ensures GoodPiece(Sign('>')) && GoodPiece(Sign('&')) && GoodPiece(Sign(';')) && GoodPiece(Blank)
  {
  }

  lemma GoodScripts()
    ensures forall i :: 0 <= i < |GUARD| ==> GoodPiece(GUARD[i])
    ensures forall i :: 0 <= i < |FALLBACK| ==> GoodPiece(FALLBACK[i])
  {
    hide GoodPiece;
    GoodWords();
    GoodLongWords();
    GoodDoubles();
    GoodSigns();
  }

  // Nesting, first level: the remote login shell runs `sh -c` with the whole script as one argument.
  lemma OuterCommand(display: string)
    ensures Tokens(RemoteCommand(display)) == Some([Word("sh"), Word("-c"), Word(Inner(display))])
  {
    hide Lex, Inner;
    var script := Quoted(Inner(display));
    QuotedIsOneWord(Inner(display));
    WordThenBlank("-c", script);
    WordThenBlank("sh", "-c " + script);
    assert "-c" + " " + script == "-c " + script;
    assert "sh" + " " + ("-c " + script) == RemoteCommand(display);
    assert [Word("-c")] + [Word(Inner(display))] == [Word("-c"), Word(Inner(display))];
    assert [Word("sh")] + [Word("-c"), Word(Inner(display))] == [Word("sh"), Word("-c"), Word(Inner(display))];
  }

  // The words of the proxy command: the display, if any, is the one last argument.
  function ProxyWords(display: string): seq<Token> {
    if display == "" then [Word("xpra"), Word("_proxy")] else [Word("xpra"), Word("_proxy"), Word(display)]
  }

  // A word under way is ended by the operator that follows it.
  lemma EndsAtOperator(word: string, rest: string)
    ensures Lex(";" + rest, Plain, Some(word)) == Prepend([Word(word)], Tokens(";" + rest))
  {
    assert (";" + rest)[1..] == rest;
    var more := Lex(rest, Plain, None);
    if more.Some? { assert [Word(word)] + ([] + [Operator(';')] + more.value) == [Word(word)] + [Operator(';')] + more.value; }
  }

  lemma ProxyReads(display: string, rest: string)
    ensures Tokens(ProxyCommand(display) + (";" + rest)) == Prepend(ProxyWords(display), Tokens(";" + rest))
  {
    if display == "" { BareProxyReads(rest); } else { DisplayProxyReads(display, rest); }
  }

  lemma BareProxyReads(rest: string)
    ensures Tokens("xpra _proxy" + (";" + rest)) == Prepend([Word("xpra"), Word("_proxy")], Tokens(";" + rest))
  {
    var tail := ";" + rest;
    EndsAtOperator("_proxy", rest);
    OrdinaryRun("_proxy", tail, None);
    hide Lex;
    WordThenBlank("xpra", "_proxy" + tail);
    assert "xpra _proxy" + tail == "xpra" + " " + ("_proxy" + tail);
    PrependTwice([Word("xpra")], [Word("_proxy")], Tokens(tail));
    assert [Word("xpra")] + [Word("_proxy")] == [Word("xpra"), Word("_proxy")];
  }

  lemma DisplayProxyReads(display: string, rest: string)
    ensures Tokens("xpra _proxy " + Quoted(display) + (";" + rest)) ==
            Prepend([Word("xpra"), Word("_proxy"), Word(display)], Tokens(";" + rest))
  {
    hide Lex, Quoted, Prepend;
    DisplayReads(display, rest);
    var tail := ";" + rest;
    var middle := Quoted(display) + tail;
    WordThenBlank("_proxy", middle);
    WordThenBlank("xpra", "_proxy" + " " + middle);
    assert "xpra _proxy " + Quoted(display) + tail == "xpra" + " " + ("_proxy" + " " + middle);
    PrependTwice([Word("_proxy")], [Word(display)], Tokens(tail));
    PrependTwice([Word("xpra")], [Word("_proxy")] + [Word(display)], Tokens(tail));
    assert [Word("xpra")] + ([Word("_proxy")] + [Word(display)]) == [Word("xpra"), Word("_proxy"), Word(display)];
  }

  lemma PrependTwice(a: seq<Token>, b: seq<Token>, rest: Option<seq<Token>>)
    ensures Prepend(a, Prepend(b, rest)) == Prepend(a + b, rest)
  {
    if rest.Some? { assert a + (b + rest.value) == a + b + rest.value; }
  }

  lemma DisplayReads(display: string, rest: string)
    ensures Tokens(Quoted(display) + (";" + rest)) == Prepend([Word(display)], Tokens(";" + rest))
  {
    QuotedIsLiteral(display, ";" + rest, None);
    EndsAtOperator(display, rest);
  }

  lemma LastWord()
    ensures Tokens("fi") == Some([Word("fi")])
  {
    OrdinaryRun("fi", "", None);
    assert "fi" + "" == "fi";
  }

  lemma FallbackReads()
    ensures Tokens(Text(FALLBACK) + "fi") == Some(AllTokens(FALLBACK) + [Word("fi")])
  {
    hide Text, AllTokens, Lex;
    LastWord();
    GoodScripts();
    PiecesRead(FALLBACK, "fi");
  }

  // Second level: in that script, the display is one argument of `xpra _proxy`, whatever characters
  // it holds; the guard and the fallback around it are the same for every display.
  lemma InnerScript(display: string)
    ensures Tokens(Inner(display)) ==
            Some(AllTokens(GUARD) + ProxyWords(display) + AllTokens(FALLBACK) + [Word("fi")])
  {
    hide Lex, Text, AllTokens, ProxyCommand;
    GoodScripts();
    var end := Text(FALLBACK) + "fi";
    PiecesRead(GUARD, ProxyCommand(display) + end);
    FallbackStart();
    ProxyReads(display, end[1..]);
    assert end == ";" + end[1..];
    FallbackReads();
    var g, p, f := AllTokens(GUARD), ProxyWords(display), AllTokens(FALLBACK) + [Word("fi")];
    assert g + (p + f) == g + p + AllTokens(FALLBACK) + [Word("fi")];
  }

  lemma FallbackStart()
    ensures Text(FALLBACK) != "" && Text(FALLBACK)[0] == ';'
  {
  }
}
