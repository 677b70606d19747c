/** What a client sees: every chunk it sends is answered by one frame (main/src/console/net_console.c,
    Console_GetCommand, over main/src/console/console.c). `version` stands for the build's VERSION. */
module Session {
  import opened Base
  import opened Text
  import opened Grammar
  import opened CommandParser
  import opened Console

  // ---------------------------------------------------------------------------------------------
  // Frames
  // ---------------------------------------------------------------------------------------------

  ghost predicate EndsFrame(s: string, i: nat) {
    i + |TERMINATOR| <= |s| && s[i..i + |TERMINATOR|] == TERMINATOR
  }

  /** It ends in the terminator, which occurs nowhere else in it. */
  ghost predicate IsFrame(s: string) {
    && |s| >= |TERMINATOR|
    && EndsFrame(s, |s| - |TERMINATOR|)
    && forall i: nat :: EndsFrame(s, i) ==> i == |s| - |TERMINATOR|
  }

  /** An occurrence of the terminator, character by character. */
  lemma TerminatorAt(s: string, i: nat)
    requires EndsFrame(s, i)
    ensures s[i + 3] == 'D' && s[i + 4] == '\r' && s[i + 5] == '\n'
    ensures forall k :: i <= k < i + 5 ==> s[k] != '\n'
  {
    var t := s[i..i + 6];
    assert t[0] == s[i] && t[1] == s[i + 1] && t[2] == s[i + 2];
    assert t[3] == s[i + 3] && t[4] == s[i + 4] && t[5] == s[i + 5];
  }

  /** A text without line feed, then the terminator. */
  lemma LastLine(s: string)
    requires '\n' !in s
    ensures IsFrame(s + TERMINATOR)
  {
    var f := s + TERMINATOR;
    assert f[|s|..|s| + 6] == TERMINATOR;
    assert forall k :: 0 <= k < |s| ==> f[k] == s[k] && s[k] in s;
    assert f[|s|] == '*' && f[|s| + 1] == 'E' && f[|s| + 2] == 'N' && f[|s| + 3] == 'D' && f[|s| + 4] == '\r';
    forall i: nat | EndsFrame(f, i)
      ensures i == |s|
    {
      TerminatorAt(f, i);
    }
  }

  /** A line in front of a frame, as long as it does not itself end like one. */
  lemma PrependLine(line: string, f: string)
    requires line != "" && '\n' !in line && line[|line| - 1] != 'D' && IsFrame(f)
    ensures IsFrame(line + NEWLINE + f)
  {
    var head := line + NEWLINE;
    var g := head + f;
    assert g[|head|..] == f;
    assert g[|g| - 6..|g|] == f[|f| - 6..];
    assert forall k :: 0 <= k < |line| ==> g[k] == line[k] && line[k] in line;
    assert g[|line|] == '\r' && g[|line| + 1] == '\n';
    forall i: nat | EndsFrame(g, i)
      ensures i == |g| - 6
    {
      TerminatorAt(g, i);
      if i >= |head| {
        assert f[i - |head|..i - |head| + 6] == g[i..i + 6];
        assert EndsFrame(f, i - |head|);
      }
    }
  }

  // ---------------------------------------------------------------------------------------------
  // The answer to one chunk
  // ---------------------------------------------------------------------------------------------

  /** All that is written in answer to a text. */
  function Answer(text: string, version: string): string {
    Flatten(RunText(text, version).1)
  }

  lemma SerializeText(name: string, response: string)
    ensures Flatten(Serialize(name, [], response)) == name + (":" + response + TERMINATOR)
  {
    FlattenSnoc([name], ":" + response + TERMINATOR);
    FlattenSnoc([], name);
    assert [] + [name] == [name] && [] + name == name;
  }

  lemma StatusLine(name: string, response: string)
    requires '\n' !in name && '\n' !in response
    ensures IsFrame(Flatten(Serialize(name, [], response)))
  {
    SerializeText(name, response);
    LastLine(name + ":" + response);
    assert name + (":" + response + TERMINATOR) == name + ":" + response + TERMINATOR;
  }

  function HelpText(e: TableEntry): string {
    "* " + Pad15(e.name) + " - " + e.help
  }

  lemma HelpTextShape(e: TableEntry)
    requires '\n' !in e.name && '\n' !in e.help && e.help != ""
    ensures '\n' !in HelpText(e) && HelpText(e) != "" && HelpText(e)[|HelpText(e)| - 1] == e.help[|e.help| - 1]
    ensures HelpLine(e) == HelpText(e) + NEWLINE
  {
  }

  /** The help listing in front of a frame is still one frame. */
  lemma HelpFrame(f: string)
    requires IsFrame(f)
    ensures IsFrame(Flatten(HandlerOutput(CmdHelp, "")) + f)
  {
    var intro, a, b := "Available commands:", COMMANDS[0], COMMANDS[1];
    CommandTexts();
    assert a in COMMANDS && b in COMMANDS;
    HelpTextShape(a);
    HelpTextShape(b);
    PrependLine(HelpText(b), f);
    PrependLine(HelpText(a), HelpLine(b) + f);
    PrependLine(intro, HelpLine(a) + (HelpLine(b) + f));
    HelpFlat(intro + NEWLINE, HelpLine(a), HelpLine(b), f);
  }

  lemma HelpFlat(x: string, y: string, z: string, f: string)
    ensures Flatten([x, y, z]) + f == x + (y + (z + f))
  {
    FlattenSnoc([x, y], z);
    FlattenSnoc([x], y);
    FlattenSnoc([], x);
    assert [x, y] + [z] == [x, y, z] && [x] + [y] == [x, y] && [] + [x] == [x] && [] + x == x;
  }

  /** Whatever the client sends, the answer is one frame: it ends in "*END" and a line break, and that
      terminator occurs nowhere else in it. */
  lemma AnswerIsFrame(text: string, version: string)
    requires ValidVersion(version)
    ensures IsFrame(Answer(text, version))
  {
    match Parse(text)
    case None => RejectedIsFrame();
    case Some(c) =>
      ParsedWellFormed(text);
      CommandAnswerIsFrame(c, version);
  }

  lemma AcceptedIsFrame(h: Handler, name: string, version: string)
    requires ValidVersion(version) && '\n' !in name
    ensures IsFrame(Flatten(HandlerOutput(h, version) + Serialize(name, [], HandlerResponse(h, version))))
  {
    var response := HandlerResponse(h, version);
    var status := Serialize(name, [], response);
    assert '\n' !in response by {
      assert NoneOf(version, "\r\n");
    }
    StatusLine(name, response);
    FlattenAppend(HandlerOutput(h, version), status);
    match h
    case CmdHelp => HelpFrame(Flatten(status));
    case CmdFwVer => assert [] + Flatten(status) == Flatten(status);
  }

  lemma RejectedIsFrame()
    ensures IsFrame(Flatten(Serialize("PARSE_ERROR", [], "FAIL")))
    ensures IsFrame(Flatten(Serialize("CMD_NOT_FOUND", [], "FAIL")))
    ensures IsFrame(Flatten(Serialize("CMD_INVALID_ARGS", [], "FAIL")))
  {
    StatusLine("PARSE_ERROR", "FAIL");
    StatusLine("CMD_NOT_FOUND", "FAIL");
    StatusLine("CMD_INVALID_ARGS", "FAIL");
  }

  lemma CommandAnswerIsFrame(c: Command, version: string)
    requires ValidVersion(version) && WellFormed(c)
    ensures IsFrame(Flatten(RunParsed(Some(c), version).1))
  {
    NoArgumentsExpected(c.name);
    RejectedIsFrame();
    assert NoneOf(c.name, "=\r\n") && '\n' in "=\r\n";
    var entry := Lookup(COMMANDS, c.name);
    if entry.Some? && entry.value.expectedArgs == |c.args| {
      assert c.args == [];
      AcceptedIsFrame(entry.value.handler, c.name, version);
    }
  }

  // ---------------------------------------------------------------------------------------------
  // Console_Printf's buffer
  // ---------------------------------------------------------------------------------------------

  lemma AcceptedFits(h: Handler, name: string, version: string, s: string)
    requires VersionFits(version) && |name| < 100
    requires s in HandlerOutput(h, version) + Serialize(name, [], HandlerResponse(h, version))
    ensures |s| < PRINTF_BUFFER_SIZE
  {
    if s in HandlerOutput(h, version) {
      HandlerOutputFits(h, version, s);
    } else {
      StatusFits(name, HandlerResponse(h, version), s);
    }
  }

  /** With the given table, every Console_Printf call formats fewer than 256 bytes, whatever the input. */
  lemma WritesFit(text: string, version: string, s: string)
    requires VersionFits(version) && s in RunText(text, version).1
    ensures |s| < PRINTF_BUFFER_SIZE
  {
    if Parse(text).None? {
      StatusFits("PARSE_ERROR", "FAIL", s);
    } else {
      var c := Parse(text).value;
      NoArgumentsExpected(c.name);
      SelectedNameShort(c.name);
      var entry := Lookup(COMMANDS, c.name);
      if entry.None? {
        StatusFits("CMD_NOT_FOUND", "FAIL", s);
      } else if entry.value.expectedArgs != |c.args| {
        StatusFits("CMD_INVALID_ARGS", "FAIL", s);
      } else {
        assert c.args == [];
        AcceptedFits(entry.value.handler, c.name, version, s);
      }
    }
  }

  // ---------------------------------------------------------------------------------------------
  // The session loop
  // ---------------------------------------------------------------------------------------------

  /** The texts run, one for each chunk before the first read that returns no byte. A chunk's last byte is
      overwritten by the NUL that ends it, whatever it was. */
  function Served(chunks: seq<seq<char>>): seq<string> {
    if chunks == [] || chunks[0] == [] then []
    else [CString(chunks[0][..|chunks[0]| - 1])] + Served(chunks[1..])
  }

  /** Everything written in answer to a list of texts, one string for each Console_Printf call. */
  function Writes(texts: seq<string>, version: string): seq<string> {
    if texts == [] then [] else RunText(texts[0], version).1 + Writes(texts[1..], version)
  }

  function Map<T, U>(f: T -> U, s: seq<T>): seq<U> {
    if s == [] then [] else [f(s[0])] + Map(f, s[1..])
  }

  function Answers(texts: seq<string>, version: string): seq<string> {
    Map((text: string) => Answer(text, version), texts)
  }

  /** read(): the chunk arrives at the front of the buffer; the rest of the buffer stays as it was. */
  method Read(cmd: array<char>, chunk: seq<char>) returns (length: nat)
    requires |chunk| <= cmd.Length
    modifies cmd
    ensures length == |chunk|
    ensures cmd[..] == chunk + old(cmd[..])[|chunk|..]
  {
    for i := 0 to |chunk|
      invariant cmd[..i] == chunk[..i]
      invariant cmd[i..] == old(cmd[..])[i..]
    {
      cmd[i] := chunk[i];
      assert cmd[..i + 1] == chunk[..i + 1];
    }
    length := |chunk|;
  }

  /** What stands behind the first NUL does not matter. */
  lemma {:induction false} CStringStops(s: seq<char>, behind: seq<char>)
    ensures CString(s + [NUL] + behind) == CString(s)
  {
    if s != [] {
      assert (s + [NUL] + behind)[1..] == s[1..] + [NUL] + behind;
      CStringStops(s[1..], behind);
    }
  }

  /** The buffer after the last byte of a chunk has been replaced holds that chunk's text, whatever an
      earlier and longer chunk has left behind it. */
  lemma ChunkText(b: seq<char>, chunk: seq<char>, behind: seq<char>)
    requires chunk != [] && b == chunk + behind
    ensures var b' := b[|chunk| - 1 := NUL]; NUL in b' && CString(b') == CString(chunk[..|chunk| - 1])
  {
    var s, b' := chunk[..|chunk| - 1], b[|chunk| - 1 := NUL];
    assert b' == s + [NUL] + behind;
    assert b'[|chunk| - 1] == NUL;
    CStringStops(s, behind);
  }

  /** The two statements in the body of the loop. */
  method Serve(ctx: ConsoleCtx, cmd: array<char>, length: nat, ghost chunk: seq<char>, version: string)
    requires ctx.Valid() && VersionFits(version) && cmd != ctx.buffer
    requires 0 < length == |chunk| <= cmd.Length && cmd[..length] == chunk
    modifies ctx, ctx.buffer, cmd
    ensures ctx.written == old(ctx.written) + RunText(CString(chunk[..length - 1]), version).1
  {
    assert cmd[..] == chunk + cmd[length..];
    ChunkText(cmd[..], chunk, cmd[length..]);
    ghost var b := cmd[..];
    cmd[length - 1] := NUL;
    assert cmd[..] == b[length - 1 := NUL];
    var _ := RunCommand(ctx, cmd, version);
  }

  /** Console_GetCommand: `chunks` are the results of its successive read() calls, where an empty one stands
      for the end of the connection or an error, and so does the end of the list. */
  method GetCommand(ctx: ConsoleCtx, cmd: array<char>, chunks: seq<seq<char>>, version: string)
    requires ctx.Valid() && VersionFits(version) && cmd != ctx.buffer
    requires cmd.Length == 500 && forall i :: 0 <= i < |chunks| ==> |chunks[i]| <= 500
    modifies ctx, ctx.buffer, cmd
    ensures ctx.written == old(ctx.written) + Writes(Served(chunks), version)
  {
    var next, length := 0, 1;
    ghost var todo := Writes(Served(chunks), version);
    ghost var goal := ctx.written + todo;
    assert chunks[0..] == chunks;
    while length > 0
      invariant next <= |chunks| && ctx.written + todo == goal
      invariant todo == if length > 0 then Writes(Served(chunks[next..]), version) else []
      decreases |chunks| - next, length
    {
      ghost var before := ctx.written;
      ghost var ahead := chunks[next..];
      if next == |chunks| {
        length := 0;
        NothingServed(ahead, version);
      } else {
        var chunk := chunks[next];
        length := Read(cmd, chunk);
        next := next + 1;
        if length > 0 {
          Serve(ctx, cmd, length, chunk, version);
          WritesNext(ahead, version, before);
          assert ahead[1..] == chunks[next..];
          todo := Writes(Served(chunks[next..]), version);
        } else {
          NothingServed(ahead, version);
        }
      }
    }
    assert ctx.written + [] == ctx.written;
  }

  lemma NothingServed(chunks: seq<seq<char>>, version: string)
    requires chunks == [] || chunks[0] == []
    ensures Writes(Served(chunks), version) == []
  {
  }

  lemma WritesNext(chunks: seq<seq<char>>, version: string, before: seq<string>)
    requires chunks != [] && chunks[0] != []
    ensures before + Writes(Served(chunks), version)
         == before + RunText(CString(chunks[0][..|chunks[0]| - 1]), version).1 + Writes(Served(chunks[1..]), version)
  {
    var text := CString(chunks[0][..|chunks[0]| - 1]);
    assert Served(chunks)[1..] == Served(chunks[1..]);
  }

  // ---------------------------------------------------------------------------------------------
  // What the overwritten byte costs
  // ---------------------------------------------------------------------------------------------

  /** A line of the text has a line break behind it already. */
  predicate LineEnded(text: string) {
    exists i, j :: 0 <= i < j < |text| && text[i] !in NEWLINE && text[j] in NEWLINE
  }

  lemma FirstLineSkips(text: string)
    requires text != "" && text[0] in NEWLINE
    ensures FirstLine(text) == FirstLine(text[1..]) && LineEnded(text) == LineEnded(text[1..])
  {
    SkipSeparator(text, NEWLINE);
    var rest := text[1..];
    forall i, j | 0 <= i < j < |text| && text[i] !in NEWLINE && text[j] in NEWLINE
      ensures LineEnded(rest)
    {
      assert rest[i - 1] == text[i] && rest[j - 1] == text[j];
    }
    forall i, j | 0 <= i < j < |rest| && rest[i] !in NEWLINE && rest[j] in NEWLINE
      ensures LineEnded(text)
    {
      assert text[i + 1] == rest[i] && text[j + 1] == rest[j];
    }
  }

  lemma FirstLineHere(text: string)
    requires text != "" && text[0] !in NEWLINE
    ensures FirstLine(text) == Some(text[..Run(text, NEWLINE)])
    ensures LineEnded(text) <==> Run(text, NEWLINE) < |text|
  {
    var n := Run(text, NEWLINE);
    TokenHere(text, NEWLINE);
    SegmentsHere(text, NEWLINE);
    RunIs(text, NEWLINE);
    forall k | 0 <= k < n
      ensures text[k] !in NEWLINE
    {
      assert text[..n][k] in text[..n];
    }
  }

  lemma RunSnoc(text: string, last: char)
    ensures var n := Run(text, NEWLINE);
            Run(text + [last], NEWLINE) == if n < |text| || last in NEWLINE then n else n + 1
  {
    var n, longer := Run(text, NEWLINE), text + [last];
    RunIs(text, NEWLINE);
    forall k | 0 <= k < n
      ensures longer[k] !in NEWLINE
    {
      assert text[..n][k] in text[..n];
    }
    RunMeans(longer, NEWLINE, if n < |text| || last in NEWLINE then n else n + 1);
  }

  /** A character more leaves the first line as it is, exactly if it is a line break or that line had ended. */
  lemma {:induction false} FirstLineSnoc(text: string, last: char)
    ensures FirstLine(text + [last]) == FirstLine(text) <==> last in NEWLINE || LineEnded(text)
  {
    var longer := text + [last];
    if text == "" {
      FirstOfOne(last);
      assert longer == [last];
    } else if text[0] in NEWLINE {
      FirstLineSkips(text);
      FirstLineSkips(longer);
      assert longer[1..] == text[1..] + [last];
      FirstLineSnoc(text[1..], last);
    } else {
      FirstLineHere(text);
      FirstLineHere(longer);
      RunSnoc(text, last);
      var n := Run(text, NEWLINE);
      assert longer[..n] == text[..n];
    }
  }

  lemma FirstOfOne(last: char)
    ensures FirstLine("") == None && (FirstLine([last]) == None <==> last in NEWLINE)
  {
    NoSegments(NEWLINE);
    if last in NEWLINE {
      SkipSeparator([last], NEWLINE);
      assert [last][1..] == "";
    } else {
      SegmentsHere([last], NEWLINE);
    }
  }

  /** The text a chunk would denote with its last byte kept. */
  lemma WholeText(chunk: seq<char>)
    requires chunk != []
    ensures var text, last := CString(chunk[..|chunk| - 1]), chunk[|chunk| - 1];
            CString(chunk) == if NUL in chunk[..|chunk| - 1] || last == NUL then text else chunk
    ensures NUL !in chunk[..|chunk| - 1] ==> CString(chunk[..|chunk| - 1]) == chunk[..|chunk| - 1]
  {
    var init, last := chunk[..|chunk| - 1], chunk[|chunk| - 1];
    assert chunk == init + [last];
    CStringSnoc(init, last);
  }

  lemma {:induction false} CStringSnoc(s: seq<char>, last: char)
    ensures CString(s + [last]) == if NUL in s || last == NUL then CString(s) else s + [last]
    ensures NUL !in s ==> CString(s) == s
  {
    if s != [] {
      assert (s + [last])[1..] == s[1..] + [last];
      assert s == [s[0]] + s[1..];
      CStringSnoc(s[1..], last);
    }
  }

  /** The first line a chunk sends is the one that is run, if and only if its last byte is a NUL or a line
      break, or the text or its first line has ended before that byte. */
  lemma LastByteIff(chunk: seq<char>)
    requires chunk != []
    ensures var before, last := chunk[..|chunk| - 1], chunk[|chunk| - 1];
            FirstLine(CString(before)) == FirstLine(CString(chunk))
            <==> last == NUL || last in NEWLINE || NUL in before || LineEnded(before)
  {
    var before, last := chunk[..|chunk| - 1], chunk[|chunk| - 1];
    WholeText(chunk);
    if NUL in before || last == NUL {
      assert CString(chunk) == CString(before);
    } else {
      assert CString(before) == before && CString(chunk) == before + [last];
      FirstLineSnoc(before, last);
    }
  }

  lemma NameOnly(name: string)
    requires name != "" && NoneOf(name, "=\r\n")
    ensures Parse(name) == Some(Command(name, []))
  {
    CanonicalParses(Command(name, []));
  }

  lemma ServedHel()
    ensures Served(["HELP"]) == ["HEL"]
  {
    var chunk: seq<char> := "HELP";
    assert chunk[..3] == "HEL" && [chunk][1..] == [];
    CStringSnoc("HEL", 'P');
  }

  lemma RunHel(version: string)
    ensures RunText("HEL", version) == (Failure, Serialize("CMD_NOT_FOUND", [], "FAIL"))
  {
    NameOnly("HEL");
    FoldLength("HEL");
    LookupFinds(COMMANDS, "HEL");
    CommandNamesDistinct();
    LookupMeans(COMMANDS, "HEL");
    FoldLength(COMMANDS[0].name);
    FoldLength(COMMANDS[1].name);
  }

  lemma RunHelpText(version: string)
    ensures RunText("HELP", version).0 == Success
  {
    NameOnly("HELP");
  }

  /** HELP without a line break runs HEL: the client is told CMD_NOT_FOUND. */
  lemma HelpNeedsALineBreak(version: string)
    ensures Served(["HELP"]) == ["HEL"]
    ensures RunText("HEL", version) == (Failure, Serialize("CMD_NOT_FOUND", [], "FAIL"))
    ensures RunText("HELP", version).0 == Success
  {
    ServedHel();
    RunHel(version);
    RunHelpText(version);
  }

  // ---------------------------------------------------------------------------------------------
  // The client's end
  // ---------------------------------------------------------------------------------------------

  /** The end of the first terminator at or after `i`; the end of the text if there is none. */
  function FrameEnd(s: string, i: nat): (end: nat)
    requires i <= |s|
    ensures i <= end <= |s| && (i < |s| ==> i < end)
    decreases |s| - i
  {
    if i + |TERMINATOR| > |s| then |s|
    else if s[i..i + |TERMINATOR|] == TERMINATOR then i + |TERMINATOR|
    else FrameEnd(s, i + 1)
  }

  /** A client that reads up to each terminator. */
  function Decode(s: string): seq<string>
    decreases |s|
  {
    if s == [] then [] else [s[..FrameEnd(s, 0)]] + Decode(s[FrameEnd(s, 0)..])
  }

  lemma {:induction false} FrameEndsThere(f: string, s: string, i: nat)
    requires IsFrame(f) && i <= |f| - |TERMINATOR|
    ensures FrameEnd(f + s, i) == |f|
    decreases |f| - i
  {
    assert (f + s)[i..i + |TERMINATOR|] == f[i..i + |TERMINATOR|];
    if i < |f| - |TERMINATOR| {
      assert !EndsFrame(f, i);
      FrameEndsThere(f, s, i + 1);
    }
  }

  /** Frames sent one after the other are told apart. */
  lemma {:induction false} DecodeFrames(frames: seq<string>)
    requires forall f :: f in frames ==> IsFrame(f)
    ensures Decode(Flatten(frames)) == frames
  {
    if frames != [] {
      var f, rest := frames[0], Flatten(frames[1..]);
      FrameEndsThere(f, rest, 0);
      assert (f + rest)[..|f|] == f && (f + rest)[|f|..] == rest;
      DecodeFrames(frames[1..]);
    }
  }

  /** Generic in the answer, which is then a frame for each text. */
  lemma {:induction false} MapAt<T, U>(f: T -> U, s: seq<T>)
    ensures |Map(f, s)| == |s| && forall i :: 0 <= i < |s| ==> Map(f, s)[i] == f(s[i])
  {
    if s != [] {
      MapAt(f, s[1..]);
    }
  }

  lemma AnswersAreFrames(texts: seq<string>, version: string)
    requires ValidVersion(version)
    ensures |Answers(texts, version)| == |texts|
    ensures forall i :: 0 <= i < |texts| ==>
              Answers(texts, version)[i] == Answer(texts[i], version) && IsFrame(Answers(texts, version)[i])
  {
    var f := (text: string) => Answer(text, version);
    MapAt(f, texts);
    forall i | 0 <= i < |texts|
      ensures Map(f, texts)[i] == Answer(texts[i], version) && IsFrame(Map(f, texts)[i])
    {
      AnswerIsFrame(texts[i], version);
    }
  }

  lemma {:induction false} WritesAreAnswers(texts: seq<string>, version: string)
    ensures Flatten(Writes(texts, version)) == Flatten(Answers(texts, version))
  {
    if texts != [] {
      FlattenAppend(RunText(texts[0], version).1, Writes(texts[1..], version));
      WritesAreAnswers(texts[1..], version);
      assert Answers(texts, version)[1..] == Answers(texts[1..], version);
    }
  }

  /** A client that splits what it receives in a session after each terminator gets exactly one answer for
      each chunk served, in order, and each is the answer to that chunk's own text. */
  lemma SessionDecodes(chunks: seq<seq<char>>, version: string)
    requires ValidVersion(version)
    ensures var frames := Decode(Flatten(Writes(Served(chunks), version)));
            && |frames| == |Served(chunks)|
            && forall i :: 0 <= i < |frames| ==> frames[i] == Answer(Served(chunks)[i], version) && IsFrame(frames[i])
  {
    var texts := Served(chunks);
    AnswersAreFrames(texts, version);
    WritesAreAnswers(texts, version);
    DecodeFrames(Answers(texts, version));
  }

  // ---------------------------------------------------------------------------------------------
  // Writes that are cut short
  // ---------------------------------------------------------------------------------------------

  /** What reaches the client when each write() takes only so many bytes: Console_Printf ignores its result. */
  function Delivered(writes: seq<string>, taken: seq<nat>): seq<string>
    requires |taken| == |writes|
  {
    seq(|writes|, i requires 0 <= i < |writes| => if taken[i] < |writes[i]| then writes[i][..taken[i]] else writes[i])
  }

  ghost predicate AllWhole(writes: seq<string>, taken: seq<nat>)
    requires |taken| == |writes|
  {
    forall i :: 0 <= i < |writes| ==> taken[i] >= |writes[i]|
  }

  lemma {:induction false} DeliveredLength(writes: seq<string>, taken: seq<nat>)
    requires |taken| == |writes|
    ensures |Flatten(Delivered(writes, taken))| <= |Flatten(writes)|
    ensures |Flatten(Delivered(writes, taken))| == |Flatten(writes)| ==> AllWhole(writes, taken)
  {
    if writes != [] {
      DeliveredLength(writes[1..], taken[1..]);
      assert Delivered(writes, taken)[1..] == Delivered(writes[1..], taken[1..]);
      WholeCons(writes, taken);
    }
  }

  lemma WholeCons(writes: seq<string>, taken: seq<nat>)
    requires |taken| == |writes| > 0
    ensures taken[0] >= |writes[0]| && AllWhole(writes[1..], taken[1..]) ==> AllWhole(writes, taken)
  {
    if taken[0] >= |writes[0]| && AllWhole(writes[1..], taken[1..]) {
      forall i | 0 <= i < |writes|
        ensures taken[i] >= |writes[i]|
      {
        assert i > 0 ==> taken[1..][i - 1] >= |writes[1..][i - 1]|;
      }
    }
  }

  lemma {:induction false} DecodeKeepsText(s: string)
    ensures Flatten(Decode(s)) == s
    decreases |s|
  {
    if s != "" {
      DecodeKeepsText(s[FrameEnd(s, 0)..]);
    }
  }

  /** The client gets exactly the answers, one for each chunk served, if and only if every write was taken
      whole: nothing but the absence of short and failed writes saves the frames. */
  lemma SessionDecodesIff(chunks: seq<seq<char>>, version: string, taken: seq<nat>)
    requires ValidVersion(version) && |taken| == |Writes(Served(chunks), version)|
    ensures var writes := Writes(Served(chunks), version);
            Decode(Flatten(Delivered(writes, taken))) == Answers(Served(chunks), version) <==> AllWhole(writes, taken)
  {
    var texts := Served(chunks);
    var writes := Writes(texts, version);
    AnswersAreFrames(texts, version);
    WritesAreAnswers(texts, version);
    DecodeFrames(Answers(texts, version));
    if AllWhole(writes, taken) {
      assert Delivered(writes, taken) == writes;
    } else {
      DecodeKeepsText(Flatten(Delivered(writes, taken)));
      DeliveredLength(writes, taken);
    }
  }

  // ---------------------------------------------------------------------------------------------
  // Which chunks are served
  // ---------------------------------------------------------------------------------------------

  /** The chunks served are those before the first read that returns no byte, each without its last byte. */
  lemma {:induction false} ServedMeans(chunks: seq<seq<char>>)
    ensures var n := |Served(chunks)|;
            && n <= |chunks|
            && (n < |chunks| ==> chunks[n] == [])
            && forall i :: 0 <= i < n ==>
                 chunks[i] != [] && Served(chunks)[i] == CString(chunks[i][..|chunks[i]| - 1])
  {
    if chunks != [] && chunks[0] != [] {
      var rest := Served(chunks[1..]);
      ServedMeans(chunks[1..]);
      assert |Served(chunks)| == 1 + |rest|;
      forall i | 0 <= i < |Served(chunks)|
        ensures chunks[i] != [] && Served(chunks)[i] == CString(chunks[i][..|chunks[i]| - 1])
      {
        if i > 0 {
          assert Served(chunks)[i] == rest[i - 1] && chunks[1..][i - 1] == chunks[i];
        }
      }
    }
  }
}
