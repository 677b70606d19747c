/** Command dispatch and responses (main/src/console/console.c). `version` stands for the build's VERSION. */
module Console {
  import opened Base
  import opened Text
  import opened Grammar
  import opened CommandParser

  const TERMINATOR := "*END\r\n"
  const CMD_RESPONSE_MAX_LENGTH := 50
  const PRINTF_BUFFER_SIZE := 256

  datatype Handler = CmdHelp | CmdFwVer

  datatype TableEntry = TableEntry(name: string, expectedArgs: nat, handler: Handler, help: string)

  const COMMANDS := [
    TableEntry("HELP", 0, CmdHelp, "show this help message"),
    TableEntry("SYS_FW_VER", 0, CmdFwVer, "get firmware version")
  ]

  // ---------------------------------------------------------------------------------------------
  // What a command line makes the console write
  // ---------------------------------------------------------------------------------------------

  /** strcasecmp(a, b) == 0. */
  predicate SameName(a: string, b: string) {
    Fold(a) == Fold(b)
  }

  /** The table entry a name selects: the first match. */
  function Lookup(table: seq<TableEntry>, name: string): Option<TableEntry> {
    if table == [] then None
    else if SameName(table[0].name, name) then Some(table[0])
    else Lookup(table[1..], name)
  }

  /** Left-justified in 15 columns. */
  function Pad15(s: string): string {
    s + seq(if |s| < 15 then 15 - |s| else 0, _ => ' ')
  }

  function HelpLine(e: TableEntry): string {
    "* " + Pad15(e.name) + " - " + e.help + NEWLINE
  }

  /** The handler's own output, one string for each Console_Printf call, and its response. */
  function HandlerOutput(h: Handler, version: string): seq<string> {
    match h
    case CmdHelp => ["Available commands:" + NEWLINE, HelpLine(COMMANDS[0]), HelpLine(COMMANDS[1])]
    case CmdFwVer => []
  }

  function HandlerResponse(h: Handler, version: string): string {
    match h
    case CmdHelp => "SUCCESS"
    case CmdFwVer => version
  }

  /** The name, and each argument behind its separator. */
  function EchoChunks(name: string, args: seq<string>): seq<string> {
    if args == [] then [name]
    else EchoChunks(name, args[..|args| - 1]) + [[if |args| == 1 then '_' else ';'] + args[|args| - 1]]
  }

  /** Console_SerializeResponse, one string for each Console_Printf call. */
  function Serialize(name: string, args: seq<string>, response: string): seq<string> {
    EchoChunks(name, args) + [":" + response + TERMINATOR]
  }

  /** The return code for a parsed line, and what is written. */
  function RunParsed(parsed: Option<Command>, version: string): (ErrorCode, seq<string>) {
    match parsed
    case None => (Failure, Serialize("PARSE_ERROR", [], "FAIL"))
    case Some(c) =>
      match Lookup(COMMANDS, c.name)
      case None => (Failure, Serialize("CMD_NOT_FOUND", [], "FAIL"))
      case Some(e) =>
        if e.expectedArgs != |c.args| then (Failure, Serialize("CMD_INVALID_ARGS", [], "FAIL"))
        else
          var response := HandlerResponse(e.handler, version);
          (Success, HandlerOutput(e.handler, version) + Serialize(c.name, c.args, response))
  }

  /** Console_RunCommand on the text of its buffer. */
  function RunText(text: string, version: string): (ErrorCode, seq<string>) {
    RunParsed(Parse(text), version)
  }

  // ---------------------------------------------------------------------------------------------
  // The command table
  // ---------------------------------------------------------------------------------------------

  /** VERSION fits the response buffer with its NUL. */
  ghost predicate VersionFits(version: string) {
    |version| < CMD_RESPONSE_MAX_LENGTH
  }

  /** And it has no line break. */
  ghost predicate ValidVersion(version: string) {
    VersionFits(version) && NoneOf(version, NEWLINE)
  }

  lemma {:induction false} FoldLength(s: string)
    ensures |Fold(s)| == |s|
  {
    if s != [] {
      FoldLength(s[1..]);
    }
  }

  /** No two entries have names that differ in letter case only. */
  ghost predicate DistinctNames(table: seq<TableEntry>) {
    forall i, j :: 0 <= i < j < |table| ==> !SameName(table[i].name, table[j].name)
  }

  lemma CommandNamesDistinct()
    ensures DistinctNames(COMMANDS)
  {
    FoldLength(COMMANDS[0].name);
    FoldLength(COMMANDS[1].name);
  }

  /** With distinct names, the first match is the only one. */
  lemma {:induction false} LookupMeans(table: seq<TableEntry>, name: string)
    requires DistinctNames(table)
    ensures match Lookup(table, name)
            case None => forall i :: 0 <= i < |table| ==> !SameName(table[i].name, name)
            case Some(e) =>
              && SameName(e.name, name)
              && forall i :: 0 <= i < |table| ==> (SameName(table[i].name, name) <==> table[i] == e)
  {
    if table != [] {
      var rest := table[1..];
      assert forall i :: 0 <= i < |rest| ==> rest[i] == table[i + 1];
      LookupMeans(rest, name);
      assert forall i :: 1 <= i < |table| ==> table[i] == rest[i - 1];
    }
  }

  lemma {:induction false} LookupFinds(table: seq<TableEntry>, name: string)
    ensures Lookup(table, name).Some? ==> Lookup(table, name).value in table
  {
    if table != [] {
      LookupFinds(table[1..], name);
    }
  }

  lemma CommandTexts()
    ensures forall e :: e in COMMANDS ==>
              && '\n' !in e.name && '\n' !in e.help && e.help != "" && e.help[|e.help| - 1] != 'D'
              && e.expectedArgs == 0 && |e.name| <= 10 && |e.help| < 100
  {
  }

  lemma NoArgumentsExpected(name: string)
    ensures Lookup(COMMANDS, name).Some? ==> Lookup(COMMANDS, name).value.expectedArgs == 0
  {
    LookupFinds(COMMANDS, name);
    CommandTexts();
  }

  /** A name that selects an entry is as long as the entry's. */
  lemma SelectedNameShort(name: string)
    ensures Lookup(COMMANDS, name).Some? ==> |name| <= 10
  {
    CommandNamesDistinct();
    LookupMeans(COMMANDS, name);
    LookupFinds(COMMANDS, name);
    CommandTexts();
    if Lookup(COMMANDS, name).Some? {
      FoldLength(name);
      FoldLength(Lookup(COMMANDS, name).value.name);
    }
  }

  // ---------------------------------------------------------------------------------------------
  // Console_Printf's buffer
  // ---------------------------------------------------------------------------------------------

  lemma StatusFits(name: string, response: string, s: string)
    requires |name| < 100 && |response| < 100 && s in Serialize(name, [], response)
    ensures |s| < PRINTF_BUFFER_SIZE
  {
    assert Serialize(name, [], response) == [name, ":" + response + TERMINATOR];
  }

  lemma HelpLinesFit()
    ensures forall i :: 0 <= i < |COMMANDS| ==> |HelpLine(COMMANDS[i])| < PRINTF_BUFFER_SIZE
  {
    CommandTexts();
    assert COMMANDS[0] in COMMANDS && COMMANDS[1] in COMMANDS;
  }

  lemma HandlerOutputFits(h: Handler, version: string, s: string)
    requires s in HandlerOutput(h, version)
    ensures |s| < PRINTF_BUFFER_SIZE
  {
    CommandTexts();
    assert COMMANDS[0] in COMMANDS && COMMANDS[1] in COMMANDS;
  }

  // ---------------------------------------------------------------------------------------------
  // The code
  // ---------------------------------------------------------------------------------------------

  /** The peer at the other end of `writeFunction`, with the strings written to it so far, and
      Console_Printf's static buffer. */
  class ConsoleCtx {
    var written: seq<string>
    const buffer: array<char>

    predicate Valid() {
      buffer.Length == PRINTF_BUFFER_SIZE
    }

    constructor ()
      ensures Valid() && fresh(buffer) && written == []
    {
      written := [];
      buffer := new char[PRINTF_BUFFER_SIZE](_ => NUL);
    }

    /** Console_Printf of an already formatted string: it is stored in the buffer with a NUL behind it, and
        its length of the buffer is written; nothing for an empty one. */
    method Printf(s: string)
      requires Valid() && |s| < PRINTF_BUFFER_SIZE
      modifies this, buffer
      ensures written == old(written) + if s == "" then [] else [s]
      ensures buffer[..|s|] == s && buffer[|s|] == NUL
    {
      for i := 0 to |s|
        invariant buffer[..i] == s[..i] && written == old(written)
      {
        buffer[i] := s[i];
      }
      assert s[..|s|] == s;
      buffer[|s|] := NUL;
      assert buffer[..|s|] == s;
      if |s| > 0 {
        written := written + [buffer[..|s|]];
      }
    }
  }

  /** Console_SerializeResponse. */
  method SerializeResponse(ctx: ConsoleCtx, name: string, args: seq<string>, response: string)
    requires ctx.Valid() && name != "" && |name| < 100 && |response| < 100
    requires forall i :: 0 <= i < |args| ==> |args[i]| < PRINTF_BUFFER_SIZE - 1
    modifies ctx, ctx.buffer
    ensures ctx.written == old(ctx.written) + Serialize(name, args, response)
  {
    ctx.Printf(name);
    assert args[..0] == [];
    for i := 0 to |args|
      invariant ctx.written == old(ctx.written) + EchoChunks(name, args[..i])
    {
      ctx.Printf([if i == 0 then '_' else ';'] + args[i]);
      assert args[..i + 1][..i] == args[..i];
    }
    assert args[..|args|] == args;
    ctx.Printf(":" + response + TERMINATOR);
  }

  /** Console_CmdHelp. */
  method RunHelp(ctx: ConsoleCtx, version: string) returns (response: string)
    requires ctx.Valid()
    modifies ctx, ctx.buffer
    ensures ctx.written == old(ctx.written) + HandlerOutput(CmdHelp, version)
    ensures response == HandlerResponse(CmdHelp, version)
  {
    var intro := "Available commands:" + NEWLINE;
    HelpLinesFit();
    ctx.Printf(intro);
    for i := 0 to |COMMANDS|
      invariant ctx.written == old(ctx.written) + HandlerOutput(CmdHelp, version)[..i + 1]
    {
      ctx.Printf(HelpLine(COMMANDS[i]));
    }
    response := "SUCCESS";
  }

  /** Console_CmdFwVer. */
  method RunFwVer(version: string) returns (response: string)
    ensures response == HandlerResponse(CmdFwVer, version)
  {
    response := version;
  }

  /** The call of a command's handler. */
  method Handle(ctx: ConsoleCtx, h: Handler, version: string) returns (response: string)
    requires ctx.Valid()
    modifies ctx, ctx.buffer
    ensures ctx.written == old(ctx.written) + HandlerOutput(h, version)
    ensures response == HandlerResponse(h, version)
  {
    match h {
      case CmdHelp => response := RunHelp(ctx, version);
      case CmdFwVer => response := RunFwVer(version);
    }
  }

  /** The search of the command table. */
  method Find(table: seq<TableEntry>, name: string) returns (entry: Option<TableEntry>)
    ensures entry == Lookup(table, name)
  {
    for i := 0 to |table|
      invariant Lookup(table, name) == Lookup(table[i..], name)
    {
      assert table[i..][1..] == table[i + 1..];
      if SameName(table[i].name, name) {
        return Some(table[i]);
      }
    }
    return None;
  }

  method Reject(ctx: ConsoleCtx, why: string) returns (error: ErrorCode)
    requires ctx.Valid() && why != "" && |why| < 100
    modifies ctx, ctx.buffer
    ensures error == Failure && ctx.written == old(ctx.written) + Serialize(why, [], "FAIL")
  {
    SerializeResponse(ctx, why, [], "FAIL");
    return Failure;
  }

  method Accept(ctx: ConsoleCtx, h: Handler, name: string, args: seq<string>, version: string)
    returns (error: ErrorCode)
    requires ctx.Valid() && VersionFits(version) && name != "" && |name| < 100 && args == []
    modifies ctx, ctx.buffer
    ensures error == Success
    ensures ctx.written
         == old(ctx.written) + (HandlerOutput(h, version) + Serialize(name, args, HandlerResponse(h, version)))
  {
    var response := Handle(ctx, h, version);
    SerializeResponse(ctx, name, args, response);
    return Success;
  }

  /** The table search and what follows it. */
  method Dispatch(ctx: ConsoleCtx, cmdName: string, cmdArgs: seq<string>, version: string) returns (error: ErrorCode)
    requires ctx.Valid() && VersionFits(version) && cmdName != ""
    modifies ctx, ctx.buffer
    ensures error == RunParsed(Some(Command(cmdName, cmdArgs)), version).0
    ensures ctx.written == old(ctx.written) + RunParsed(Some(Command(cmdName, cmdArgs)), version).1
  {
    var entry := Find(COMMANDS, cmdName);
    if entry.None? {
      error := Reject(ctx, "CMD_NOT_FOUND");
    } else if entry.value.expectedArgs != |cmdArgs| {
      error := Reject(ctx, "CMD_INVALID_ARGS");
    } else {
      NoArgumentsExpected(cmdName);
      SelectedNameShort(cmdName);
      error := Accept(ctx, entry.value.handler, cmdName, cmdArgs, version);
    }
  }

  /** Console_RunCommand. */
  method RunCommand(ctx: ConsoleCtx, cmdLine: array<char>, version: string) returns (error: ErrorCode)
    requires ctx.Valid() && VersionFits(version) && NUL in cmdLine[..] && cmdLine != ctx.buffer
    modifies ctx, ctx.buffer, cmdLine
    ensures error == RunText(CString(old(cmdLine[..])), version).0
    ensures ctx.written == old(ctx.written) + RunText(CString(old(cmdLine[..])), version).1
  {
    ghost var parsed := Parse(CString(cmdLine[..]));
    ParsedWellFormed(CString(cmdLine[..]));
    var argc, name, args, _ := ParseCommand(cmdLine);
    if argc < 0 {
      error := Reject(ctx, "PARSE_ERROR");
      return;
    }
    AllStored(cmdLine[..], name, args, parsed.value);
    var cmdName, cmdArgs := ReadBack(cmdLine, name, args, parsed.value);
    error := Dispatch(ctx, cmdName, cmdArgs, version);
  }

  lemma AllStored(b: seq<char>, name: nat, args: seq<nat>, c: Command)
    requires |args| == |c.args|
    requires forall i :: 0 <= i < |c.args| + 1 ==> StoredAt(b, ([name] + args)[i], ([c.name] + c.args)[i])
    ensures StoredAt(b, name, c.name) && forall i :: 0 <= i < |args| ==> StoredAt(b, args[i], c.args[i])
  {
    assert StoredAt(b, ([name] + args)[0], ([c.name] + c.args)[0]);
    forall i | 0 <= i < |args|
      ensures StoredAt(b, args[i], c.args[i])
    {
      assert StoredAt(b, ([name] + args)[i + 1], ([c.name] + c.args)[i + 1]);
    }
  }

  /** The strings behind the pointers a parse leaves. */
  method ReadBack(cmdLine: array<char>, name: nat, args: seq<nat>, ghost c: Command)
    returns (cmdName: string, cmdArgs: seq<string>)
    requires |args| == |c.args| && StoredAt(cmdLine[..], name, c.name)
    requires forall i :: 0 <= i < |args| ==> StoredAt(cmdLine[..], args[i], c.args[i])
    ensures cmdName == c.name && cmdArgs == c.args
  {
    var b := cmdLine[..];
    ReadsBack(b, name, c.name);
    cmdName := CString(b[name..]);
    cmdArgs := [];
    for i := 0 to |args|
      invariant cmdArgs == c.args[..i]
    {
      assert StoredAt(b, args[i], c.args[i]);
      ReadsBack(b, args[i], c.args[i]);
      cmdArgs := cmdArgs + [CString(b[args[i]..])];
    }
  }

  // ---------------------------------------------------------------------------------------------
  // Return codes
  // ---------------------------------------------------------------------------------------------

  /** SUCCESS exactly when a table name matches and the number of arguments is the expected one. */
  lemma SuccessIff(text: string, version: string)
    ensures RunText(text, version).0 == Success <==>
            Parse(text).Some?
            && exists e :: e in COMMANDS && SameName(e.name, Parse(text).value.name)
                           && e.expectedArgs == |Parse(text).value.args|
    ensures RunText(text, version).0 != Success ==> RunText(text, version).0 == Failure
  {
    if Parse(text).Some? {
      CommandNamesDistinct();
      CodeMeans(COMMANDS, Parse(text).value);
    }
  }

  lemma CodeMeans(table: seq<TableEntry>, c: Command)
    requires DistinctNames(table)
    ensures (Lookup(table, c.name).Some? && Lookup(table, c.name).value.expectedArgs == |c.args|)
      <==> exists e :: e in table && SameName(e.name, c.name) && e.expectedArgs == |c.args|
  {
    LookupMeans(table, c.name);
    LookupFinds(table, c.name);
  }

  lemma {:induction false} LookupFold(table: seq<TableEntry>, a: string, b: string)
    requires Fold(a) == Fold(b)
    ensures Lookup(table, a) == Lookup(table, b)
  {
    if table != [] {
      LookupFold(table[1..], a, b);
    }
  }

  /** The first non-empty line without letter case. */
  function FoldedLine(text: string): Option<string> {
    match FirstLine(text)
    case None => None
    case Some(line) => Some(Fold(line))
  }

  lemma CodeIgnoresCase(a: Command, b: Command, version: string)
    requires Fold(a.name) == Fold(b.name) && |a.args| == |b.args|
    ensures RunParsed(Some(a), version).0 == RunParsed(Some(b), version).0
  {
    LookupFold(COMMANDS, a.name, b.name);
  }

  /** The return code depends on the first non-empty line only, and not on its letter case. */
  lemma FirstLineDecides(a: string, b: string, version: string)
    requires FoldedLine(a) == FoldedLine(b)
    ensures RunText(a, version).0 == RunText(b, version).0
  {
    match FirstLine(a)
    case None =>
    case Some(line) =>
      var other := FirstLine(b).value;
      ParseLineFold(line);
      ParseLineFold(other);
      if ParseLine(line).Some? {
        CodeIgnoresCase(ParseLine(line).value, ParseLine(other).value, version);
      }
  }

  // ---------------------------------------------------------------------------------------------
  // Parse and echo
  // ---------------------------------------------------------------------------------------------

  lemma {:induction false} JoinSnoc(parts: seq<string>, last: string)
    ensures Join(parts + [last], ';') == if parts == [] then last else Join(parts, ';') + [';'] + last
  {
    if parts == [] {
      assert parts + [last] == [last];
    } else {
      JoinSnoc(parts[1..], last);
      assert (parts + [last])[1..] == parts[1..] + [last];
      if |parts| > 1 {
        assert Join(parts, ';') == parts[0] + [';'] + Join(parts[1..], ';');
      }
    }
  }

  lemma FlattenSnoc(parts: seq<string>, last: string)
    ensures Flatten(parts + [last]) == Flatten(parts) + last
  {
    FlattenAppend(parts, [last]);
    assert [last][1..] == [];
  }

  lemma {:induction false} EchoText(name: string, args: seq<string>)
    ensures Flatten(EchoChunks(name, args)) == if args == [] then name else name + ['_'] + Join(args, ';')
  {
    if args == [] {
      FlattenSnoc([], name);
      assert [] + [name] == [name] && [] + name == name;
    } else {
      var before, last := args[..|args| - 1], args[|args| - 1];
      EchoText(name, before);
      JoinSnoc(before, last);
      assert before + [last] == args;
      EchoMore(name, before, last, if before == [] then '_' else ';');
    }
  }

  lemma EchoMore(name: string, before: seq<string>, last: string, sep: char)
    requires Flatten(EchoChunks(name, before)) == if before == [] then name else name + ['_'] + Join(before, ';')
    ensures Flatten(EchoChunks(name, before) + [[sep] + last])
         == if before == [] then name + [sep] + last else name + ['_'] + (Join(before, ';') + [sep] + last)
  {
    var text, joined := Flatten(EchoChunks(name, before)), Join(before, ';');
    FlattenSnoc(EchoChunks(name, before), [sep] + last);
    Associate(text, [sep], last);
    if before != [] {
      Associate(name + ['_'], joined, [sep]);
      Associate(name + ['_'], joined + [sep], last);
    }
  }

  lemma EchoIsCanonical(c: Command)
    ensures var echo := Flatten(EchoChunks(c.name, c.args));
            if c.args == [] then echo == Canonical(c)
            else |c.name| < |echo| && echo[|c.name|] == '_' && echo[|c.name| := '='] == Canonical(c)
  {
    EchoText(c.name, c.args);
    if c.args != [] {
      var rest := Join(c.args, ';');
      assert (c.name + ['_'] + rest)[|c.name| := '='] == c.name + ['='] + rest;
    }
  }

  /** What is echoed before the colon, with the '_' after the name read as '=', parses back to the same
      command. So parsing and echoing normalises a line, and does so once and for all. */
  lemma EchoParsesBack(text: string, c: Command)
    requires Parse(text) == Some(c)
    ensures var echo := Flatten(EchoChunks(c.name, c.args));
            if c.args == [] then Parse(echo) == Some(c)
            else |c.name| < |echo| && echo[|c.name|] == '_' && Parse(echo[|c.name| := '=']) == Some(c)
  {
    ParsedWellFormed(text);
    CanonicalParses(c);
    EchoIsCanonical(c);
  }

  lemma RunAtLeast(s: string, seps: string, n: nat)
    requires n <= |s| && NoneOf(s[..n], seps)
    ensures Run(s, seps) >= n
  {
    RunIs(s, seps);
    assert forall k :: 0 <= k < n ==> s[k] == s[..n][k] && s[k] in s[..n];
  }

  /** A line that starts with `run`, free of '=', has a name at least that long. */
  lemma LongName(run: string, rest: string)
    requires run != "" && NoneOf(run, "=\r\n") && NoneOf(rest, NEWLINE)
    ensures Parse(run + rest).Some? && |Parse(run + rest).value.name| >= |run|
  {
    var line := run + rest;
    assert line[..|run|] == run && line[0] == run[0] && run[0] in run;
    WholeLine(line);
    NameToken(line);
    TokenHere(line, "=");
    RunAtLeast(line, "=", |run|);
  }

  lemma EchoNameLonger(c: Command)
    requires WellFormed(c) && c.args != []
    ensures var echo := Parse(Flatten(EchoChunks(c.name, c.args))); echo.Some? && |echo.value.name| > |c.name|
  {
    EchoText(c.name, c.args);
    var rest := Join(c.args, ';');
    forall ch | ch in rest
      ensures ch !in NEWLINE
    {
      JoinChars(c.args, ';', ch);
    }
    LongName(c.name + ['_'], rest);
  }

  /** Read as it is, an echo parses back exactly if it has no arguments: the '_' behind the name is not the
      '=' that the parser expects there. */
  lemma EchoItselfIff(text: string, c: Command)
    requires Parse(text) == Some(c)
    ensures Parse(Flatten(EchoChunks(c.name, c.args))) == Some(c) <==> c.args == []
  {
    ParsedWellFormed(text);
    if c.args == [] {
      EchoParsesBack(text, c);
    } else {
      EchoNameLonger(c);
    }
  }

  lemma CanonicalX1()
    ensures Parse("X=1") == Some(Command("X", ["1"]))
  {
    CanonicalParses(Command("X", ["1"]));
    assert Canonical(Command("X", ["1"])) == "X=1";
  }

  lemma EchoTextX1()
    ensures Flatten(EchoChunks("X", ["1"])) == "X_1"
  {
    EchoText("X", ["1"]);
  }

  /** "X=1" is echoed as "X_1", which does not parse back to it. */
  lemma EchoOfX1()
    ensures Parse("X=1") == Some(Command("X", ["1"]))
    ensures Flatten(EchoChunks("X", ["1"])) == "X_1" && Parse("X_1") != Parse("X=1")
  {
    CanonicalX1();
    EchoTextX1();
    EchoItselfIff("X=1", Command("X", ["1"]));
  }
}
