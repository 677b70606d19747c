/** The console's answers, spelled out (main/src/console/console.c, main/src/console/cmd_system.c): the code
    that is returned and the strings that are written, for every text. */
module ConsoleAnswers {
  import opened Base
  import opened Text
  import opened Grammar
  import opened Console

  // ---------------------------------------------------------------------------------------------
  // Letter case
  // ---------------------------------------------------------------------------------------------

  /** The same character, or the two cases of one ASCII letter. */
  predicate SameLetter(x: char, y: char) {
    || x == y
    || ('A' <= x <= 'Z' && y as int == x as int + 32)
    || ('A' <= y <= 'Z' && x as int == y as int + 32)
  }

  predicate EqualIgnoringCase(a: string, b: string) {
    |a| == |b| && forall i :: 0 <= i < |a| ==> SameLetter(a[i], b[i])
  }

  lemma {:induction false} FoldAt(s: string, i: nat)
    requires i < |s|
    ensures |Fold(s)| == |s| && Fold(s)[i] == Lower(s[i])
  {
    if i > 0 {
      FoldAt(s[1..], i - 1);
    } else {
      FoldLength(s);
    }
  }

  lemma SameLetterIff(x: char, y: char)
    ensures Lower(x) == Lower(y) <==> SameLetter(x, y)
  {
  }

  /** strcasecmp compares position by position. */
  lemma SameNameIff(a: string, b: string)
    ensures SameName(a, b) <==> EqualIgnoringCase(a, b)
  {
    FoldLength(a);
    FoldLength(b);
    if |a| == |b| {
      forall i | 0 <= i < |a|
        ensures Fold(a)[i] == Fold(b)[i] <==> SameLetter(a[i], b[i])
      {
        FoldAt(a, i);
        FoldAt(b, i);
        SameLetterIff(a[i], b[i]);
      }
      assert EqualIgnoringCase(a, b) ==> Fold(a) == Fold(b);
    }
  }

  // ---------------------------------------------------------------------------------------------
  // Answers
  // ---------------------------------------------------------------------------------------------

  /** The answer to a parsed line, in the words that go over the wire. */
  function AnswerTo(parsed: Option<Command>, version: string): (ErrorCode, seq<string>) {
    match parsed
    case None => (Failure, ["PARSE_ERROR", ":FAIL*END\r\n"])
    case Some(Command(name, args)) =>
      if EqualIgnoringCase("HELP", name) then
        if args != [] then (Failure, ["CMD_INVALID_ARGS", ":FAIL*END\r\n"])
        else
          (Success, [
            "Available commands:\r\n",
            "* " + "HELP           " + " - " + "show this help message" + "\r\n",
            "* " + "SYS_FW_VER     " + " - " + "get firmware version" + "\r\n",
            name, ":SUCCESS*END\r\n"])
      else if EqualIgnoringCase("SYS_FW_VER", name) then
        if args != [] then (Failure, ["CMD_INVALID_ARGS", ":FAIL*END\r\n"])
        else (Success, [name, ":" + version + "*END\r\n"])
      else (Failure, ["CMD_NOT_FOUND", ":FAIL*END\r\n"])
  }

  lemma LookupTwo(a: TableEntry, b: TableEntry, name: string)
    ensures Lookup([a, b], name)
         == if SameName(a.name, name) then Some(a) else if SameName(b.name, name) then Some(b) else None
  {
    assert [a, b][1..] == [b] && [b][1..] == [];
    assert Lookup([b], name) == if SameName(b.name, name) then Some(b) else None;
  }

  lemma LookupIs(name: string)
    ensures Lookup(COMMANDS, name) ==
            if EqualIgnoringCase("HELP", name) then Some(COMMANDS[0])
            else if EqualIgnoringCase("SYS_FW_VER", name) then Some(COMMANDS[1])
            else None
  {
    SameNameIff("HELP", name);
    SameNameIff("SYS_FW_VER", name);
    LookupTwo(COMMANDS[0], COMMANDS[1], name);
    assert COMMANDS == [COMMANDS[0], COMMANDS[1]];
  }

  lemma Padded(name: string, spaces: string)
    requires |name| + |spaces| == 15 && forall i :: 0 <= i < |spaces| ==> spaces[i] == ' '
    ensures Pad15(name) == name + spaces
  {
  }

  lemma HelpLines()
    ensures HelpLine(COMMANDS[0]) == "* " + "HELP           " + " - " + "show this help message" + "\r\n"
    ensures HelpLine(COMMANDS[1]) == "* " + "SYS_FW_VER     " + " - " + "get firmware version" + "\r\n"
  {
    HelpColumn();
    VersionColumn();
  }

  lemma HelpColumn()
    ensures Pad15("HELP") == "HELP           "
  {
    Padded("HELP", "           ");
  }

  lemma VersionColumn()
    ensures Pad15("SYS_FW_VER") == "SYS_FW_VER     "
  {
    Padded("SYS_FW_VER", "     ");
  }

  lemma StatusIs(name: string, response: string)
    ensures Serialize(name, [], response) == [name, ":" + response + "*END\r\n"]
  {
  }

  lemma RejectionsAre()
    ensures Serialize("PARSE_ERROR", [], "FAIL") == ["PARSE_ERROR", ":FAIL*END\r\n"]
    ensures Serialize("CMD_NOT_FOUND", [], "FAIL") == ["CMD_NOT_FOUND", ":FAIL*END\r\n"]
    ensures Serialize("CMD_INVALID_ARGS", [], "FAIL") == ["CMD_INVALID_ARGS", ":FAIL*END\r\n"]
  {
    StatusIs("PARSE_ERROR", "FAIL");
    StatusIs("CMD_NOT_FOUND", "FAIL");
    StatusIs("CMD_INVALID_ARGS", "FAIL");
    assert ":" + "FAIL" + "*END\r\n" == ":FAIL*END\r\n";
  }

  lemma HelpIs(name: string, version: string)
    ensures HandlerOutput(CmdHelp, version) + Serialize(name, [], HandlerResponse(CmdHelp, version))
         == ["Available commands:\r\n", HelpLine(COMMANDS[0]), HelpLine(COMMANDS[1]), name, ":SUCCESS*END\r\n"]
  {
    StatusIs(name, "SUCCESS");
    assert ":" + "SUCCESS" + "*END\r\n" == ":SUCCESS*END\r\n";
    assert "Available commands:" + NEWLINE == "Available commands:\r\n";
    FiveStrings("Available commands:\r\n", HelpLine(COMMANDS[0]), HelpLine(COMMANDS[1]), name, ":SUCCESS*END\r\n");
  }

  lemma FiveStrings(a: string, b: string, c: string, d: string, e: string)
    ensures [a, b, c] + [d, e] == [a, b, c, d, e]
  {
  }

  lemma VersionIs(name: string, version: string)
    ensures HandlerOutput(CmdFwVer, version) + Serialize(name, [], HandlerResponse(CmdFwVer, version))
         == [name, ":" + version + "*END\r\n"]
  {
    StatusIs(name, version);
  }

  lemma ParsedAnswer(parsed: Option<Command>, version: string)
    ensures RunParsed(parsed, version) == AnswerTo(parsed, version)
  {
    RejectionsAre();
    if parsed.Some? {
      var c := parsed.value;
      LookupIs(c.name);
      if c.args == [] {
        HelpIs(c.name, version);
        HelpLines();
        VersionIs(c.name, version);
      }
    }
  }

  /** For every text: HELP and SYS_FW_VER, in any letter case and without arguments, get their own answers; with
      arguments they are invalid; any other name is not found; and a text without a name is a parse error. */
  lemma AnswersAre(text: string, version: string)
    ensures RunText(text, version) == AnswerTo(Parse(text), version)
  {
    ParsedAnswer(Parse(text), version);
  }
}
