/** Console_ParseCommand on its buffer (main/src/console/console.c): strtok_r writes a NUL over the
    separator that ends each token, and name and arguments are positions in that buffer. */
module CommandParser {
  import opened Base
  import opened Text
  import opened Grammar

  const NUL := '\0'

  /** The string that starts at the head of `b`: everything before the first NUL. */
  function CString(b: seq<char>): (s: string)
    ensures NUL !in s && |s| <= |b| && b[..|s|] == s
    ensures |s| < |b| ==> b[|s|] == NUL
    ensures NUL in b ==> |s| < |b|
  {
    if b == [] || b[0] == NUL then []
    else
      var s := [b[0]] + CString(b[1..]);
      assert b[..|s|] == [b[0]] + b[1..][..|s| - 1];
      s
  }

  /** `s` is stored at `p`, ended by a NUL. */
  ghost predicate StoredAt(b: seq<char>, p: nat, s: string) {
    p + |s| < |b| && b[p..p + |s|] == s && b[p + |s|] == NUL && NUL !in s
  }

  /** The string from `p` on ends at `n`. */
  ghost predicate EndsAt(b: seq<char>, p: nat, n: nat) {
    p <= n < |b| && b[n] == NUL && forall k :: p <= k < n ==> b[k] != NUL
  }

  lemma {:induction false} CStringStored(b: seq<char>, s: string)
    requires StoredAt(b, 0, s)
    ensures CString(b) == s
  {
    assert b[..|s|] == s;
    if s != [] {
      assert b[0] == s[0] && s[0] in s;
      assert b[1..][0..|s| - 1] == s[1..];
      CStringStored(b[1..], s[1..]);
    }
  }

  /** What a C caller reads at a stored string's position. */
  lemma ReadsBack(b: seq<char>, p: nat, s: string)
    requires StoredAt(b, p, s)
    ensures CString(b[p..]) == s
  {
    assert b[p..][0..|s|] == s;
    CStringStored(b[p..], s);
  }

  /** strspn from `p`; `n` is where the string's NUL is. */
  method Span(buf: array<char>, p: nat, seps: string, ghost n: nat) returns (end: nat)
    requires EndsAt(buf[..], p, n)
    ensures p <= end <= n && end == p + Lead(buf[p..n], seps)
  {
    ghost var text := buf[p..n];
    assert forall i :: 0 <= i < |text| ==> text[i] in text;
    end := p;
    while buf[end] != NUL && buf[end] in seps
      invariant p <= end <= n
      invariant forall i :: 0 <= i < end - p ==> text[i] in seps
      decreases n - end
    {
      assert buf[end] == text[end - p];
      end := end + 1;
    }
    assert end < n ==> buf[end] == text[end - p];
    LeadMeans(text, seps, end - p);
  }

  /** strcspn from `start`, in the string that starts at `p`. */
  method ComplementSpan(buf: array<char>, start: nat, seps: string, ghost p: nat, ghost n: nat) returns (end: nat)
    requires p <= start <= n && EndsAt(buf[..], p, n)
    ensures start <= end <= n && end == p + NextSeparator(buf[p..n], seps, start - p)
  {
    ghost var text := buf[p..n];
    end := start;
    while buf[end] != NUL && buf[end] !in seps
      invariant start <= end <= n
      invariant forall i :: start - p <= i < end - p ==> text[i] !in seps
      decreases n - end
    {
      assert buf[end] == text[end - p];
      end := end + 1;
    }
    assert end < n ==> buf[end] == text[end - p];
    StopMeans(text, seps, start - p, end - p);
  }

  /** The effect of a strtok_r call that scans the string from `p` to the NUL at `n`: the token's position,
      the place to go on from, and at most the one separator after the token overwritten. */
  ghost predicate TokenCut(
    before: seq<char>, after: seq<char>, p: nat, n: nat, seps: string, token: Option<nat>, save: nat)
    requires p <= n < |before|
  {
    CutFor(NextToken(before[p..n], seps), before, after, p, n, seps, token, save)
  }

  ghost predicate CutFor(
    t: Token, before: seq<char>, after: seq<char>, p: nat, n: nat, seps: string, token: Option<nat>, save: nat)
    requires p <= n < |before|
  {
    match t
    case NoToken => token == None && save == n && after == before
    case Token(text, rest) =>
      && token.Some? && p <= token.value && token.value + |text| <= n
      && before[token.value..token.value + |text|] == text
      && after == before[token.value + |text| := NUL]
      && (token.value + |text| < n ==> before[token.value + |text|] in seps)
      && save == (if token.value + |text| < n then token.value + |text| + 1 else n)
      && after[save..n] == rest
  }

  lemma NulIsEnd(b: seq<char>, p: nat, n: nat, i: nat)
    requires p <= i <= n && EndsAt(b, p, n) && b[i] == NUL
    ensures i == n
  {
  }

  lemma Slices(b: seq<char>, text: string, p: nat, n: nat, from: nat, to: nat)
    requires p <= n <= |b| && text == b[p..n] && p <= from <= to <= n
    ensures text[from - p..to - p] == b[from..to]
  {
    var x, y := text[from - p..to - p], b[from..to];
    assert forall k :: 0 <= k < to - from ==> x[k] == y[k];
  }

  lemma Suffixes(b: seq<char>, text: string, p: nat, n: nat, from: nat)
    requires p <= n <= |b| && text == b[p..n] && p <= from <= n
    ensures text[from - p..] == b[from..n]
  {
    Slices(b, text, p, n, from, n);
  }

  lemma CutsAs(t: Token, before: seq<char>, p: nat, n: nat, seps: string, start: nat, end: nat)
    requires p <= start <= end <= n < |before| && before[n] == NUL
    requires t == Token(before[start..end], if end < n then before[end + 1..n] else [])
    requires end < n ==> before[end] in seps
    ensures CutFor(t, before, before[end := NUL], p, n, seps, Some(start), if end < n then end + 1 else n)
  {
    var after := before[end := NUL];
    if end < n {
      assert after[end + 1..n] == before[end + 1..n];
    }
  }

  /** The same pieces, taken from the buffer. */
  lemma InBuffer(b: seq<char>, text: string, p: nat, n: nat, start: nat, end: nat)
    requires p <= start <= end <= n <= |b| && text == b[p..n]
    ensures text[start - p..end - p] == b[start..end]
    ensures end < n ==> text[end - p] == b[end] && text[end - p + 1..] == b[end + 1..n]
  {
    Slices(b, text, p, n, start, end);
    if end < n {
      Suffixes(b, text, p, n, end + 1);
      assert text[end - p] == b[end];
    }
  }

  lemma PiecesCut(t: Token, text: string, before: seq<char>, p: nat, n: nat, seps: string, start: nat, end: nat)
    requires p <= start <= end <= n < |before| && before[n] == NUL && text == before[p..n]
    requires t == Token(text[start - p..end - p], if end < n then text[end - p + 1..] else [])
    requires end < n ==> text[end - p] in seps
    ensures CutFor(t, before, before[end := NUL], p, n, seps, Some(start), if end < n then end + 1 else n)
  {
    InBuffer(before, text, p, n, start, end);
    CutsAs(t, before, p, n, seps, start, end);
  }

  /** What skipping to `start` and cutting at `end` amounts to. */
  lemma CutsToken(before: seq<char>, p: nat, n: nat, seps: string, start: nat, end: nat)
    requires p <= start < n < |before| && before[n] == NUL
    requires start == p + Lead(before[p..n], seps)
    requires start <= end <= n && end == p + NextSeparator(before[p..n], seps, start - p)
    ensures TokenCut(before, before[end := NUL], p, n, seps, Some(start), if end < n then end + 1 else n)
  {
    var text := before[p..n];
    NextTokenIs(text, seps, start - p, end - p);
    PiecesCut(NextToken(text, seps), text, before, p, n, seps, start, end);
  }

  lemma NothingCut(before: seq<char>, p: nat, n: nat, seps: string, start: nat)
    requires p <= start <= n < |before| && start == p + Lead(before[p..n], seps)
    requires EndsAt(before, p, n) && before[start] == NUL
    ensures TokenCut(before, before, p, n, seps, None, start)
  {
    NulIsEnd(before, p, n, start);
  }

  /** The separator at `end` has been overwritten, or the NUL was there already. */
  lemma TokenCutAt(before: seq<char>, after: seq<char>, p: nat, n: nat, seps: string, start: nat, end: nat, save: nat)
    requires p <= start <= end <= n && EndsAt(before, p, n)
    requires start == p + Lead(before[p..n], seps) && before[start] != NUL
    requires end == p + NextSeparator(before[p..n], seps, start - p)
    requires after == before[end := NUL] && save == (if before[end] == NUL then end else end + 1)
    ensures TokenCut(before, after, p, n, seps, Some(start), save)
  {
    assert start < n;
    if before[end] == NUL {
      NulIsEnd(before, p, n, end);
    }
    CutsToken(before, p, n, seps, start, end);
  }

  /** strtok_r. */
  method Strtok(buf: array<char>, p: nat, seps: string, ghost n: nat) returns (token: Option<nat>, save: nat)
    requires EndsAt(buf[..], p, n)
    modifies buf
    ensures TokenCut(old(buf[..]), buf[..], p, n, seps, token, save)
  {
    ghost var before := buf[..];
    assert before[p..n] == buf[p..n];
    var start := Span(buf, p, seps, n);
    if buf[start] == NUL {
      NothingCut(before, p, n, seps, start);
      return None, start;
    }
    var end := ComplementSpan(buf, start, seps, p, n);
    if buf[end] == NUL {
      save := end;
    } else {
      buf[end] := NUL;
      save := end + 1;
    }
    assert buf[..] == before[end := NUL];
    TokenCutAt(before, buf[..], p, n, seps, start, end, save);
    token := Some(start);
  }

  // ---------------------------------------------------------------------------------------------
  // Three phases on one buffer
  // ---------------------------------------------------------------------------------------------

  /** `s` is stored at `p`, before `save`, from which the text up to the NUL at `n` is still to be scanned. */
  ghost predicate Settled(b: seq<char>, n: nat, save: nat, p: nat, s: string) {
    StoredAt(b, p, s) && (p + |s| < save || p + |s| == save == n)
  }

  /** The strings `strs` are settled at `places`, in order and apart from each other. */
  ghost predicate Laid(b: seq<char>, n: nat, save: nat, places: seq<nat>, strs: seq<string>) {
    && |places| == |strs|
    && EndsAt(b, save, n)
    && (forall i :: 0 <= i < |strs| ==> Settled(b, n, save, places[i], strs[i]))
    && (forall i, j :: 0 <= i < j < |strs| ==> Ends(places, strs, i) < places[j])
  }

  /** Where the NUL of the `i`-th string is. */
  function Ends(places: seq<nat>, strs: seq<string>, i: nat): nat
    requires i < |strs| == |places|
  {
    places[i] + |strs[i]|
  }

  /** Every change is a NUL over a separator. */
  ghost predicate OnlySeparatorsCut(before: seq<char>, after: seq<char>) {
    && |before| == |after|
    && forall i :: 0 <= i < |before| && before[i] != after[i] ==> after[i] == NUL && before[i] in "\r\n=;"
  }

  /** Cutting the next token leaves a settled string alone. */
  lemma SettledKept(b: seq<char>, n: nat, save: nat, p: nat, s: string, token: nat, end: nat)
    requires Settled(b, n, save, p, s) && save <= token < end <= n < |b|
    ensures Settled(b[end := NUL], n, if end < n then end + 1 else n, p, s) && p + |s| < token
  {
    assert b[end := NUL][p..p + |s|] == b[p..p + |s|];
  }

  /** The token that was cut is stored, and so is the rest. */
  lemma TokenStored(b: seq<char>, r: seq<char>, p: nat, n: nat, seps: string, token: nat, save: nat)
    requires EndsAt(b, p, n)
    requires TokenCut(b, r, p, n, seps, Some(token), save)
    ensures var t := NextToken(b[p..n], seps);
            t.Token? && |r| == |b| && StoredAt(r, token, t.text) && EndsAt(r, save, n) && t.rest == r[save..n]
  {
    var t := NextToken(b[p..n], seps);
    NextTokenChars(b[p..n], seps);
    assert r[token..token + |t.text|] == b[token..token + |t.text|];
  }

  /** A cut token joins the strings already laid out. */
  lemma LaidMore(
    b: seq<char>, r: seq<char>, n: nat, seps: string, save: nat, token: nat, save': nat,
    places: seq<nat>, strs: seq<string>)
    requires Laid(b, n, save, places, strs)
    requires TokenCut(b, r, save, n, seps, Some(token), save')
    ensures var t := NextToken(b[save..n], seps);
            t.Token? && Laid(r, n, save', places + [token], strs + [t.text]) && t.rest == r[save'..n]
  {
    TokenStored(b, r, save, n, seps, token, save');
    TokenSegments(b[save..n], seps);
    var text := NextToken(b[save..n], seps).text;
    var places', strs' := places + [token], strs + [text];
    assert Settled(r, n, save', token, text);
    forall i | 0 <= i < |strs|
      ensures Settled(r, n, save', places[i], strs[i]) && Ends(places, strs, i) < token
    {
      SettledKept(b, n, save, places[i], strs[i], token, token + |text|);
    }
    LaidAppend(r, n, save', places, strs, token, text);
  }

  lemma LaidAppend(b: seq<char>, n: nat, save: nat, places: seq<nat>, strs: seq<string>, p: nat, s: string)
    requires |places| == |strs| && EndsAt(b, save, n) && Settled(b, n, save, p, s)
    requires forall i :: 0 <= i < |strs| ==> Settled(b, n, save, places[i], strs[i]) && Ends(places, strs, i) < p
    requires forall i, j :: 0 <= i < j < |strs| ==> Ends(places, strs, i) < places[j]
    ensures Laid(b, n, save, places + [p], strs + [s])
  {
    var places', strs' := places + [p], strs + [s];
    forall i | 0 <= i < |strs|
      ensures places'[i] == places[i] && strs'[i] == strs[i] && Ends(places', strs', i) == Ends(places, strs, i)
    {
    }
  }

  lemma CutsStaySeparators(
    before: seq<char>, b: seq<char>, r: seq<char>, p: nat, n: nat, seps: string, token: Option<nat>, save: nat)
    requires OnlySeparatorsCut(before, b) && p <= n < |b| && b[n] == NUL && NUL !in seps
    requires TokenCut(b, r, p, n, seps, token, save)
    requires forall c :: c in seps ==> c in "\r\n=;"
    ensures OnlySeparatorsCut(before, r)
  {
  }

  /** Name and arguments are stored, in order and apart, inside the line `text`, which starts at `line`. */
  ghost predicate Placed(
    before: seq<char>, after: seq<char>, line: nat, text: string, places: seq<nat>, strs: seq<string>)
  {
    && |places| == |strs|
    && line + |text| < |before| && before[line..line + |text|] == text
    && (forall i :: 0 <= i < |strs| ==> StoredAt(after, places[i], strs[i]))
    && (forall i, j :: 0 <= i < j < |strs| ==> Ends(places, strs, i) < places[j])
    && (forall i :: 0 <= i < |strs| ==> line <= places[i] && Ends(places, strs, i) <= line + |text|)
  }

  /** The outcome of a parse: -1 exactly when the text has no name; otherwise name and arguments are placed
      inside the first non-empty line; and nothing but separators has been overwritten. */
  ghost predicate ParsedInPlace(
    before: seq<char>, after: seq<char>, line: nat, argc: int, name: nat, args: seq<nat>)
  {
    && OnlySeparatorsCut(before, after)
    && match Parse(CString(before))
       case None => argc == -1
       case Some(c) =>
         && argc == |args| == |c.args|
         && Placed(before, after, line, FirstLine(CString(before)).value, [name] + args, [c.name] + c.args)
  }

  /** The line strtok_r finds in a text; the empty string if there is none. */
  ghost function LineOf(text: string): string {
    match NextToken(text, NEWLINE) case NoToken => "" case Token(line, _) => line
  }

  /** First phase: NUL-terminates the first non-empty line. Without one, the next strtok_r call gets NULL
      and goes on from the end of the text, where it finds the empty string. */
  method CutLine(buf: array<char>) returns (start: nat)
    requires NUL in buf[..]
    modifies buf
    ensures OnlySeparatorsCut(old(buf[..]), buf[..])
    ensures StoredAt(buf[..], start, LineOf(CString(old(buf[..]))))
  {
    ghost var before := buf[..];
    ghost var n := |CString(before)|;
    assert before[0..n] == CString(before);
    var first, save := Strtok(buf, 0, NEWLINE, n);
    CutsStaySeparators(before, before, buf[..], 0, n, NEWLINE, first, save);
    match first {
      case None =>
        return save;
      case Some(line) =>
        TokenStored(before, buf[..], 0, n, NEWLINE, line, save);
        return line;
    }
  }

  /** `strs` are the name and the first arguments of `c`; the other arguments are the tokens of `ahead`. */
  ghost predicate ArgsSoFar(c: Command, strs: seq<string>, ahead: string) {
    && 1 <= |strs| <= CMD_ARGS_MAX_LENGTH + 1
    && [c.name] + c.args == strs + Tokens(ahead, ";", CMD_ARGS_MAX_LENGTH + 1 - |strs|)
  }

  lemma ArgCut(c: Command, strs: seq<string>, ahead: string, text: string, rest: string)
    requires ArgsSoFar(c, strs, ahead) && |strs| <= CMD_ARGS_MAX_LENGTH && NextToken(ahead, ";") == Token(text, rest)
    ensures ArgsSoFar(c, strs + [text], rest)
  {
    var others := Tokens(rest, ";", CMD_ARGS_MAX_LENGTH - |strs|);
    TokensStep(ahead, ";", CMD_ARGS_MAX_LENGTH + 1 - |strs|, text, rest);
    Associate(strs, [text], others);
  }

  lemma ArgsComplete(c: Command, strs: seq<string>, ahead: string)
    requires ArgsSoFar(c, strs, ahead)
    requires |strs| == CMD_ARGS_MAX_LENGTH + 1 || NextToken(ahead, ";") == NoToken
    ensures strs == [c.name] + c.args
  {
    assert strs + [] == strs;
  }

  /** One more argument has been cut. */
  lemma NextArg(
    before: seq<char>, b: seq<char>, r: seq<char>, n: nat, save: nat, token: nat, save': nat,
    places: seq<nat>, strs: seq<string>, c: Command)
    returns (text: string)
    requires Laid(b, n, save, places, strs) && ArgsSoFar(c, strs, b[save..n]) && |strs| <= CMD_ARGS_MAX_LENGTH
    requires OnlySeparatorsCut(before, b) && TokenCut(b, r, save, n, ";", Some(token), save')
    ensures Laid(r, n, save', places + [token], strs + [text]) && ArgsSoFar(c, strs + [text], r[save'..n])
    ensures OnlySeparatorsCut(before, r)
  {
    CutsStaySeparators(before, b, r, save, n, ";", Some(token), save');
    LaidMore(b, r, n, ";", save, token, save', places, strs);
    var t := NextToken(b[save..n], ";");
    ArgCut(c, strs, b[save..n], t.text, t.rest);
    text := t.text;
  }

  lemma CutsCompose(before: seq<char>, b: seq<char>, after: seq<char>)
    requires OnlySeparatorsCut(before, b) && OnlySeparatorsCut(b, after)
    ensures OnlySeparatorsCut(before, after)
  {
    forall i | 0 <= i < |before| && before[i] != after[i]
      ensures after[i] == NUL && before[i] in "\r\n=;"
    {
      assert b[i] != after[i] || before[i] != b[i];
    }
  }

  /** The arguments cut so far, and the text ahead of them. */
  ghost predicate Cutting(b: seq<char>, n: nat, next: nat, places: seq<nat>, strs: seq<string>, c: Command) {
    Laid(b, n, next, places, strs) && ArgsSoFar(c, strs, b[next..n])
  }

  /** Name and arguments, all cut. */
  ghost predicate AllCut(b: seq<char>, n: nat, next: nat, name: nat, args: seq<nat>, c: Command) {
    |args| == |c.args| && Laid(b, n, next, [name] + args, [c.name] + c.args)
  }

  lemma NoMoreCuts(b: seq<char>, n: nat, next: nat, name: nat, args: seq<nat>, strs: seq<string>, c: Command)
    requires Cutting(b, n, next, [name] + args, strs, c)
    requires |strs| == CMD_ARGS_MAX_LENGTH + 1 || NextToken(b[next..n], ";") == NoToken
    ensures AllCut(b, n, next, name, args, c)
  {
    ArgsComplete(c, strs, b[next..n]);
    assert |[name] + args| == |[c.name] + c.args|;
  }

  lemma ArgTaken(
    b: seq<char>, r: seq<char>, n: nat, from: nat, token: nat, next: nat,
    name: nat, args: seq<nat>, strs: seq<string>, c: Command)
    returns (text: string)
    requires Cutting(b, n, from, [name] + args, strs, c) && |strs| <= CMD_ARGS_MAX_LENGTH
    requires TokenCut(b, r, from, n, ";", Some(token), next)
    ensures Cutting(r, n, next, [name] + (args + [token]), strs + [text], c) && OnlySeparatorsCut(b, r)
  {
    text := NextArg(b, b, r, n, from, token, next, [name] + args, strs, c);
    Associate([name], args, [token]);
  }

  lemma ArgsExhausted(
    b: seq<char>, r: seq<char>, n: nat, from: nat, next: nat,
    name: nat, args: seq<nat>, strs: seq<string>, c: Command)
    requires Cutting(b, n, from, [name] + args, strs, c) && TokenCut(b, r, from, n, ";", None, next)
    ensures r == b && AllCut(r, n, from, name, args, c)
  {
    NoMoreCuts(b, n, from, name, args, strs, c);
  }

  /** One round of the third phase. */
  method CutArg(
    buf: array<char>, from: nat, args: seq<nat>,
    ghost n: nat, ghost name: nat, ghost strs: seq<string>, ghost c: Command)
    returns (args': seq<nat>, next: nat, ghost text: string)
    requires Cutting(buf[..], n, from, [name] + args, strs, c) && |strs| <= CMD_ARGS_MAX_LENGTH
    modifies buf
    ensures OnlySeparatorsCut(old(buf[..]), buf[..])
    ensures |args'| == |args| || |args'| == |args| + 1
    ensures |args'| > |args| ==> Cutting(buf[..], n, next, [name] + args', strs + [text], c)
    ensures |args'| == |args| ==> args' == args && AllCut(buf[..], n, from, name, args, c)
  {
    ghost var b := buf[..];
    assert buf[from..n] == b[from..n];
    args', text := args, "";
    var arg;
    arg, next := Strtok(buf, from, ";", n);
    ghost var r := buf[..];
    if arg.Some? {
      text := ArgTaken(b, r, n, from, arg.value, next, name, args, strs, c);
      args' := args + [arg.value];
    } else {
      ArgsExhausted(b, r, n, from, next, name, args, strs, c);
    }
  }

  /** Third phase: up to ten arguments from `from` on. */
  method CutArgs(buf: array<char>, from: nat, ghost n: nat, ghost name: nat, ghost c: Command)
    returns (args: seq<nat>, ghost save: nat)
    requires Cutting(buf[..], n, from, [name] + [], [c.name], c)
    modifies buf
    ensures OnlySeparatorsCut(old(buf[..]), buf[..])
    ensures AllCut(buf[..], n, save, name, args, c)
  {
    args := [];
    ghost var strs := [c.name];
    var next := from;
    while |args| < CMD_ARGS_MAX_LENGTH
      invariant |strs| == |args| + 1 <= CMD_ARGS_MAX_LENGTH + 1
      invariant Cutting(buf[..], n, next, [name] + args, strs, c)
      invariant OnlySeparatorsCut(old(buf[..]), buf[..])
    {
      ghost var b := buf[..];
      var args', next', text := CutArg(buf, next, args, n, name, strs, c);
      CutsCompose(old(buf[..]), b, buf[..]);
      if |args'| == |args| {
        return args, next;
      }
      args, next, strs := args', next', strs + [text];
    }
    NoMoreCuts(buf[..], n, next, name, args, strs, c);
    save := next;
  }

  /** The name alone, once the second phase has cut it. */
  lemma NameCut(b: seq<char>, r: seq<char>, start: nat, n: nat, name: nat, save: nat, c: Command)
    requires EndsAt(b, start, n)
    requires TokenCut(b, r, start, n, "=", Some(name), save)
    requires ScanLine(b[start..n]) == Some(c)
    ensures Cutting(r, n, save, [name], [c.name], c) && start <= name
  {
    LaidMore(b, r, n, "=", start, name, save, [], []);
    assert [] + [name] == [name] && [] + [c.name] == [c.name];
  }

  /** Everything in place, from the last phase. */
  lemma InPlace(
    before: seq<char>, after: seq<char>, line: nat, text: string, save: nat, places: seq<nat>, strs: seq<string>)
    requires |places| == |strs| > 0 && line <= places[0]
    requires line + |text| < |before| && before[line..line + |text|] == text
    requires Laid(after, line + |text|, save, places, strs)
    ensures Placed(before, after, line, text, places, strs)
  {
    forall i | 0 <= i < |strs|
      ensures line <= places[i] && Ends(places, strs, i) <= line + |text| && StoredAt(after, places[i], strs[i])
    {
      assert Settled(after, line + |text|, save, places[i], strs[i]);
      assert i > 0 ==> Ends(places, strs, 0) < places[i];
    }
  }

  /** A stored string free of NULs was there before: only separators became NULs. */
  lemma WasThere(before: seq<char>, after: seq<char>, p: nat, s: string)
    requires OnlySeparatorsCut(before, after) && StoredAt(after, p, s)
    ensures before[p..p + |s|] == s
  {
    forall i | 0 <= i < |s|
      ensures before[p + i] == s[i]
    {
      assert after[p + i] == after[p..p + |s|][i] && s[i] in s;
    }
  }

  /** The parse of a text is the scan of its line. */
  lemma ParseIsLineScan(text: string)
    ensures Parse(text) == ScanLine(LineOf(text))
    ensures Parse(text).Some? ==> FirstLine(text) == Some(LineOf(text))
  {
    ScanIsParse(text);
    TokenSegments(text, NEWLINE);
  }

  /** The outcome of the two later phases on a line that starts at `start` and ends at `n`, and that denotes
      `parsed`. */
  ghost predicate CommandCut(
    after: seq<char>, start: nat, n: nat, parsed: Option<Command>, save: nat, argc: int, name: nat, args: seq<nat>)
  {
    match parsed
    case None => argc == -1
    case Some(c) => argc == |args| && start <= name && AllCut(after, n, save, name, args, c)
  }

  /** What the two later phases leave is what the grammar asks for. */
  lemma AllInPlace(
    before: seq<char>, after: seq<char>, line: nat, text: string, save: nat, argc: int, name: nat, args: seq<nat>)
    requires OnlySeparatorsCut(before, after) && text == LineOf(CString(before))
    requires line + |text| < |before| && before[line..line + |text|] == text
    requires CommandCut(after, line, line + |text|, ScanLine(text), save, argc, name, args)
    ensures ParsedInPlace(before, after, line, argc, name, args)
  {
    ParseIsLineScan(CString(before));
    if ScanLine(text).Some? {
      var c := ScanLine(text).value;
      InPlace(before, after, line, text, save, [name] + args, [c.name] + c.args);
    }
  }

  /** The outcome of the second phase on that line: its name, and the text from `next` on still ahead. */
  ghost predicate NameCutFor(b: seq<char>, start: nat, n: nat, parsed: Option<Command>, name: Option<nat>, next: nat) {
    match parsed
    case None => name == None
    case Some(c) => name.Some? && start <= name.value && Cutting(b, n, next, [name.value] + [], [c.name], c)
  }

  /** Second phase, on the line `text` stored at `start`: the name, or none. */
  method CutName(buf: array<char>, start: nat, ghost text: string, ghost parsed: Option<Command>)
    returns (name: Option<nat>, next: nat)
    requires StoredAt(buf[..], start, text) && parsed == ScanLine(text)
    modifies buf
    ensures OnlySeparatorsCut(old(buf[..]), buf[..])
    ensures NameCutFor(buf[..], start, start + |text|, parsed, name, next)
  {
    ghost var b, n := buf[..], start + |text|;
    assert b[start..n] == text == buf[start..n];
    name, next := Strtok(buf, start, "=", n);
    CutsStaySeparators(b, b, buf[..], start, n, "=", name, next);
    if name.Some? {
      NameCut(b, buf[..], start, n, name.value, next, parsed.value);
      assert [name.value] + [] == [name.value];
    }
  }

  /** Third phase: the arguments behind a name; without a name there is none. */
  method CutRest(
    buf: array<char>, start: nat, token: Option<nat>, from: nat, ghost n: nat, ghost parsed: Option<Command>)
    returns (argc: int, name: nat, args: seq<nat>, ghost save: nat)
    requires NameCutFor(buf[..], start, n, parsed, token, from)
    modifies buf
    ensures OnlySeparatorsCut(old(buf[..]), buf[..])
    ensures CommandCut(buf[..], start, n, parsed, save, argc, name, args)
  {
    if token.None? {
      return -1, 0, [], 0;
    }
    name := token.value;
    args, save := CutArgs(buf, from, n, name, parsed.value);
    argc := |args|;
  }

  /** Second and third phase, on the line `text` stored at `start`. */
  method CutCommand(buf: array<char>, start: nat, ghost text: string, ghost parsed: Option<Command>)
    returns (argc: int, name: nat, args: seq<nat>, ghost save: nat)
    requires StoredAt(buf[..], start, text) && parsed == ScanLine(text)
    modifies buf
    ensures OnlySeparatorsCut(old(buf[..]), buf[..])
    ensures CommandCut(buf[..], start, start + |text|, parsed, save, argc, name, args)
  {
    ghost var b, n := buf[..], start + |text|;
    var token, next := CutName(buf, start, text, parsed);
    ghost var r := buf[..];
    argc, name, args, save := CutRest(buf, start, token, next, n, parsed);
    ghost var after := buf[..];
    CutsCompose(b, r, after);
  }

  /** Console_ParseCommand. */
  method ParseCommand(cmdLine: array<char>) returns (argc: int, name: nat, args: seq<nat>, ghost line: nat)
    requires NUL in cmdLine[..]
    modifies cmdLine
    ensures ParsedInPlace(old(cmdLine[..]), cmdLine[..], line, argc, name, args)
  {
    ghost var before := cmdLine[..];
    ghost var text := LineOf(CString(before));
    var start := CutLine(cmdLine);
    ghost var b := cmdLine[..];
    WasThere(before, b, start, text);
    line := start;
    ghost var last;
    argc, name, args, last := CutCommand(cmdLine, start, text, ScanLine(text));
    CutsCompose(before, b, cmdLine[..]);
    AllInPlace(before, cmdLine[..], line, text, last, argc, name, args);
  }
}
