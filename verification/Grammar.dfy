/** The console's command grammar, stated without strtok_r: which name and arguments a text denotes.
    main/src/console/console.c, Console_ParseCommand. */
module Grammar {
  import opened Base
  import opened Text

  const CMD_ARGS_MAX_LENGTH := 10
  const NEWLINE := "\r\n"

  datatype Command = Command(name: string, args: seq<string>)

  /** The first non-empty line. */
  function FirstLine(text: string): Option<string> {
    var lines := Segments(text, NEWLINE);
    if lines == [] then None else Some(lines[0])
  }

  /** Of a line split at every '=': the first non-empty part, and the text after it. */
  function NameAndRest(parts: seq<string>): Token {
    if parts == [] then NoToken
    else if parts[0] == [] then NameAndRest(parts[1..])
    else Token(parts[0], Join(parts[1..], '='))
  }

  /** The name is the line's first maximal '='-free run; the arguments are the first ten non-empty
      ';'-segments after it. */
  function ParseLine(line: string): Option<Command> {
    match NameAndRest(Split(line, "="))
    case NoToken => None
    case Token(name, rest) => Some(Command(name, Take(Segments(rest, ";"), CMD_ARGS_MAX_LENGTH)))
  }

  function Parse(text: string): Option<Command> {
    match FirstLine(text)
    case None => None
    case Some(line) => ParseLine(line)
  }

  // ---------------------------------------------------------------------------------------------
  // Three phases of strtok_r compute it
  // ---------------------------------------------------------------------------------------------

  function ScanLine(line: string): Option<Command> {
    match NextToken(line, "=")
    case NoToken => None
    case Token(name, rest) => Some(Command(name, Tokens(rest, ";", CMD_ARGS_MAX_LENGTH)))
  }

  function Scan(text: string): Option<Command> {
    match NextToken(text, NEWLINE)
    case NoToken => None
    case Token(line, _) => ScanLine(line)
  }

  lemma {:induction false} NameToken(line: string)
    ensures NextToken(line, "=") == NameAndRest(Split(line, "="))
  {
    if line == [] {
    } else if line[0] == '=' {
      SkipSeparator(line, "=");
      NameToken(line[1..]);
      NameAndRestSkips(Split(line[1..], "="));
    } else {
      TokenHere(line, "=");
      SplitAtRun(line, "=");
      var n := Run(line, "=");
      assert line[..|line|] == line;
      if n < |line| {
        JoinSplit(line[n + 1..], '=');
        NameAndRestTakes(line[..n], Split(line[n + 1..], "="));
      } else {
        NameAndRestTakes(line, []);
        assert [line] + [] == [line];
      }
    }
  }

  lemma NameAndRestSkips(parts: seq<string>)
    ensures NameAndRest([[]] + parts) == NameAndRest(parts)
  {
    assert ([[]] + parts)[1..] == parts;
  }

  lemma NameAndRestTakes(name: string, parts: seq<string>)
    requires name != []
    ensures NameAndRest([name] + parts) == Token(name, Join(parts, '='))
  {
    assert ([name] + parts)[1..] == parts;
  }

  lemma ScanIsParse(text: string)
    ensures Scan(text) == Parse(text)
  {
    TokenSegments(text, NEWLINE);
    match NextToken(text, NEWLINE)
    case NoToken =>
    case Token(line, _) =>
      NameToken(line);
      match NextToken(line, "=")
      case NoToken =>
      case Token(_, rest) => TokensAreSegments(rest, ";", CMD_ARGS_MAX_LENGTH);
  }

  // ---------------------------------------------------------------------------------------------
  // Round trip
  // ---------------------------------------------------------------------------------------------

  /** The one-line text of a command. */
  function Canonical(c: Command): string {
    if c.args == [] then c.name else c.name + ['='] + Join(c.args, ';')
  }

  /** What Parse can return. */
  ghost predicate WellFormed(c: Command) {
    && c.name != [] && NoneOf(c.name, "=\r\n")
    && |c.args| <= CMD_ARGS_MAX_LENGTH
    && forall a :: a in c.args ==> a != [] && NoneOf(a, ";\r\n")
  }

  lemma {:induction false} JoinChars(parts: seq<string>, sep: char, ch: char)
    requires ch in Join(parts, sep)
    ensures ch == sep || exists p :: p in parts && ch in p
  {
    if |parts| > 1 {
      assert Join(parts, sep) == parts[0] + [sep] + Join(parts[1..], sep);
      if ch !in parts[0] && ch != sep {
        JoinChars(parts[1..], sep, ch);
      }
    }
  }

  lemma {:induction false} SegmentsJoin(parts: seq<string>)
    requires forall p :: p in parts ==> p != [] && NoneOf(p, ";")
    ensures Segments(Join(parts, ';'), ";") == parts
  {
    if parts == [] {
      NoSegments(";");
    } else if |parts| == 1 {
      SplitWhole(parts[0], ";");
      NonEmptyCons(parts[0], []);
      assert [parts[0]] + [] == parts;
    } else {
      assert forall p :: p in parts[1..] ==> p in parts;
      SegmentsJoin(parts[1..]);
      SplitFirst(parts[0], ';', Join(parts[1..], ';'), ";");
      NonEmptyCons(parts[0], Split(Join(parts[1..], ';'), ";"));
      assert [parts[0]] + parts[1..] == parts;
    }
  }

  lemma WholeLine(text: string)
    requires text != [] && NoneOf(text, NEWLINE)
    ensures FirstLine(text) == Some(text)
  {
    SplitWhole(text, NEWLINE);
    NonEmptyCons(text, []);
    assert [text] + [] == [text];
  }

  lemma NamedLineParses(name: string, rest: string)
    requires name != [] && NoneOf(name, "=")
    ensures ParseLine(name + ['='] + rest) == Some(Command(name, Take(Segments(rest, ";"), CMD_ARGS_MAX_LENGTH)))
  {
    SplitFirst(name, '=', rest, "=");
    NameAndRestTakes(name, Split(rest, "="));
    JoinSplit(rest, '=');
    assert ['='] == "=";
  }

  lemma NamedLineIsALine(name: string, args: seq<string>)
    requires name != [] && NoneOf(name, "=\r\n")
    requires forall a :: a in args ==> NoneOf(a, ";\r\n")
    ensures NoneOf(name + ['='] + Join(args, ';'), NEWLINE)
  {
    forall ch | ch in name + ['='] + Join(args, ';')
      ensures ch !in NEWLINE
    {
      if ch !in name && ch != '=' {
        JoinChars(args, ';', ch);
      }
    }
  }

  /** Of a name and any number of arguments, the name and the first ten arguments are parsed. */
  lemma FirstTenArguments(name: string, args: seq<string>)
    requires name != [] && NoneOf(name, "=\r\n")
    requires forall a :: a in args ==> a != [] && NoneOf(a, ";\r\n")
    ensures Parse(name + ['='] + Join(args, ';')) == Some(Command(name, if |args| <= 10 then args else args[..10]))
  {
    NamedLineIsALine(name, args);
    forall a | a in args
      ensures a != [] && NoneOf(a, ";")
    {
      assert NoneOf(a, ";\r\n");
    }
    SegmentsJoin(args);
    NamedTextParses(name, Join(args, ';'), args);
  }

  lemma NamedTextParses(name: string, rest: string, args: seq<string>)
    requires name != [] && NoneOf(name, "=\r\n") && Segments(rest, ";") == args
    requires NoneOf(name + ['='] + rest, NEWLINE)
    ensures Parse(name + ['='] + rest) == Some(Command(name, if |args| <= 10 then args else args[..10]))
  {
    assert NoneOf(name, "=");
    var line := name + ['='] + rest;
    NamedLineParses(name, rest);
    WholeLine(line);
    assert Parse(line) == ParseLine(line);
    assert |args| == 10 ==> args[..10] == args;
  }

  lemma NameAloneParses(name: string)
    requires name != [] && NoneOf(name, "=\r\n")
    ensures Parse(name) == Some(Command(name, []))
  {
    assert NoneOf(name, "=") && NoneOf(name, NEWLINE);
    WholeLine(name);
    SplitWhole(name, "=");
    NameAndRestTakes(name, []);
    assert [name] + [] == [name];
    NoSegments(";");
  }

  /** A well-formed command is what its text parses to. */
  lemma CanonicalParses(c: Command)
    requires WellFormed(c)
    ensures Parse(Canonical(c)) == Some(c)
  {
    if c.args == [] {
      NameAloneParses(c.name);
    } else {
      FirstTenArguments(c.name, c.args);
    }
  }

  lemma {:induction false} SplitChars(s: string, seps: string, part: string)
    requires part in Split(s, seps)
    ensures NoneOf(part, seps) && forall ch :: ch in part ==> ch in s
  {
    if s != [] {
      var r := Split(s[1..], seps);
      if part in r {
        SplitChars(s[1..], seps, part);
      } else if s[0] !in seps {
        SplitChars(s[1..], seps, r[0]);
      }
    }
  }

  lemma {:induction false} NonEmptyMembers(parts: seq<string>, part: string)
    requires part in NonEmpty(parts)
    ensures part in parts && part != []
  {
    if part != parts[0] || part == [] {
      NonEmptyMembers(parts[1..], part);
    }
  }

  lemma SegmentChars(s: string, seps: string, part: string)
    requires part in Segments(s, seps)
    ensures part != [] && NoneOf(part, seps) && forall ch :: ch in part ==> ch in s
  {
    NonEmptyMembers(Split(s, seps), part);
    SplitChars(s, seps, part);
  }

  lemma LineCommandWellFormed(line: string)
    requires NoneOf(line, NEWLINE)
    ensures ParseLine(line).Some? ==> WellFormed(ParseLine(line).value)
  {
    NameToken(line);
    TokenSegments(line, "=");
    match NextToken(line, "=")
    case NoToken =>
    case Token(name, rest) =>
      NextTokenChars(line, "=");
      forall a | a in Take(Segments(rest, ";"), CMD_ARGS_MAX_LENGTH)
        ensures a != [] && NoneOf(a, ";\r\n")
      {
        SegmentChars(rest, ";", a);
      }
  }

  lemma NextTokenChars(s: string, seps: string)
    ensures match NextToken(s, seps)
            case NoToken => true
            case Token(text, rest) => (forall ch :: ch in text ==> ch in s) && (forall ch :: ch in rest ==> ch in s)
  {
  }

  lemma ParsedWellFormed(text: string)
    ensures Parse(text).Some? ==> WellFormed(Parse(text).value)
  {
    match FirstLine(text)
    case None =>
    case Some(line) =>
      SegmentChars(text, NEWLINE, line);
      LineCommandWellFormed(line);
  }

  /** The well-formed commands are exactly those some text parses to. */
  lemma WellFormedIff(c: Command)
    ensures WellFormed(c) <==> exists text :: Parse(text) == Some(c)
  {
    if WellFormed(c) {
      CanonicalParses(c);
    }
    forall text | Parse(text) == Some(c)
      ensures WellFormed(c)
    {
      ParsedWellFormed(text);
    }
  }

  // ---------------------------------------------------------------------------------------------
  // Letter case
  // ---------------------------------------------------------------------------------------------

  /** tolower on ASCII. */
  function Lower(c: char): char {
    if 'A' <= c <= 'Z' then (c as int + 32) as char else c
  }

  function Fold(s: string): string {
    if s == [] then [] else [Lower(s[0])] + Fold(s[1..])
  }

  function FoldAll(parts: seq<string>): (r: seq<string>)
    ensures |r| == |parts|
  {
    if parts == [] then [] else [Fold(parts[0])] + FoldAll(parts[1..])
  }

  /** No letter is a separator. */
  ghost predicate CaseFree(seps: string) {
    forall c :: Lower(c) in seps <==> c in seps
  }

  lemma {:induction false} SplitFold(s: string, seps: string)
    requires CaseFree(seps)
    ensures Split(Fold(s), seps) == FoldAll(Split(s, seps))
  {
    if s != [] {
      SplitFold(s[1..], seps);
      var r := Split(s[1..], seps);
      assert Fold(s)[1..] == Fold(s[1..]);
      if s[0] in seps {
        assert ([[]] + r)[1..] == r;
      } else {
        assert ([[s[0]] + r[0]] + r[1..])[1..] == r[1..];
        assert ([s[0]] + r[0])[1..] == r[0];
      }
    }
  }

  lemma {:induction false} NonEmptyFold(parts: seq<string>)
    ensures NonEmpty(FoldAll(parts)) == FoldAll(NonEmpty(parts))
  {
    if parts != [] {
      NonEmptyFold(parts[1..]);
      assert FoldAll(parts)[1..] == FoldAll(parts[1..]);
      if parts[0] != [] {
        assert ([parts[0]] + NonEmpty(parts[1..]))[1..] == NonEmpty(parts[1..]);
      } else {
        assert [] + NonEmpty(parts[1..]) == NonEmpty(parts[1..]);
      }
    }
  }

  lemma FoldCons(c: char, s: string)
    ensures Fold([c] + s) == [Lower(c)] + Fold(s)
  {
    assert ([c] + s)[1..] == s;
  }

  lemma {:induction false} FoldAppend(a: string, b: string)
    ensures Fold(a + b) == Fold(a) + Fold(b)
  {
    if a == [] {
      assert a + b == b;
    } else {
      var rest := a[1..];
      assert a == [a[0]] + rest && a + b == [a[0]] + (rest + b);
      FoldCons(a[0], rest);
      FoldCons(a[0], rest + b);
      FoldAppend(rest, b);
    }
  }

  lemma {:induction false} JoinFold(parts: seq<string>)
    ensures Join(FoldAll(parts), '=') == Fold(Join(parts, '='))
  {
    if |parts| > 1 {
      JoinFold(parts[1..]);
      assert FoldAll(parts)[1..] == FoldAll(parts[1..]);
      FoldAppend(parts[0] + ['='], Join(parts[1..], '='));
      FoldAppend(parts[0], ['=']);
    }
  }

  lemma {:induction false} NameAndRestFold(parts: seq<string>)
    ensures NameAndRest(FoldAll(parts)) ==
            match NameAndRest(parts)
            case NoToken => NoToken
            case Token(name, rest) => Token(Fold(name), Fold(rest))
  {
    if parts != [] {
      assert FoldAll(parts)[1..] == FoldAll(parts[1..]);
      if parts[0] == [] {
        NameAndRestFold(parts[1..]);
      } else {
        JoinFold(parts[1..]);
      }
    }
  }

  /** Folding a line folds its command: the same shape, with every letter lowered. */
  lemma ParseLineFold(line: string)
    ensures match ParseLine(line)
            case None => ParseLine(Fold(line)) == None
            case Some(c) =>
              && ParseLine(Fold(line)).Some?
              && ParseLine(Fold(line)).value.name == Fold(c.name)
              && |ParseLine(Fold(line)).value.args| == |c.args|
  {
    SplitFold(line, "=");
    NameAndRestFold(Split(line, "="));
    match NameAndRest(Split(line, "="))
    case NoToken =>
    case Token(_, rest) =>
      SplitFold(rest, ";");
      NonEmptyFold(Split(rest, ";"));
  }
}
