/** Splitting strings: by definition (`Split`), and the way strtok_r finds one token after the other. */
module Text {
  import opened Base

  predicate NoneOf(s: string, seps: string) {
    forall c :: c in s ==> c !in seps
  }

  /** Every stretch between separators, empty ones included. */
  function Split(s: string, seps: string): (r: seq<string>)
    ensures r != []
  {
    if s == [] then [[]]
    else
      var r := Split(s[1..], seps);
      if s[0] in seps then [[]] + r else [[s[0]] + r[0]] + r[1..]
  }

  function NonEmpty(parts: seq<string>): seq<string> {
    if parts == [] then [] else (if parts[0] == [] then [] else [parts[0]]) + NonEmpty(parts[1..])
  }

  lemma NonEmptyCons(first: string, parts: seq<string>)
    ensures NonEmpty([first] + parts) == if first == [] then NonEmpty(parts) else [first] + NonEmpty(parts)
  {
    assert ([first] + parts)[1..] == parts;
  }

  /** The non-empty stretches between separators. */
  function Segments(s: string, seps: string): seq<string> {
    NonEmpty(Split(s, seps))
  }

  function Join(parts: seq<string>, sep: char): string {
    if parts == [] then []
    else if |parts| == 1 then parts[0]
    else parts[0] + [sep] + Join(parts[1..], sep)
  }

  function Flatten(parts: seq<string>): string {
    if parts == [] then [] else parts[0] + Flatten(parts[1..])
  }

  lemma FlattenCons(first: string, parts: seq<string>)
    ensures Flatten([first] + parts) == first + Flatten(parts)
  {
    assert ([first] + parts)[1..] == parts;
  }

  lemma {:induction false} FlattenAppend(a: seq<string>, b: seq<string>)
    ensures Flatten(a + b) == Flatten(a) + Flatten(b)
  {
    if a == [] {
      assert a + b == b;
    } else {
      var rest := a[1..];
      FlattenAppend(rest, b);
      assert a + b == [a[0]] + (rest + b);
      FlattenCons(a[0], rest + b);
      Associate(a[0], Flatten(rest), Flatten(b));
    }
  }

  lemma {:induction false} SplitRun(a: string, s: string, seps: string)
    requires NoneOf(a, seps)
    ensures Split(a + s, seps) == [a + Split(s, seps)[0]] + Split(s, seps)[1..]
  {
    if a == [] {
      var r := Split(s, seps);
      assert a + s == s && a + r[0] == r[0];
      assert r == [r[0]] + r[1..];
    } else {
      assert (a + s)[1..] == a[1..] + s;
      assert a[0] in a;
      SplitRun(a[1..], s, seps);
      assert [a[0]] + (a[1..] + Split(s, seps)[0]) == a + Split(s, seps)[0];
    }
  }

  lemma SplitWhole(a: string, seps: string)
    requires NoneOf(a, seps)
    ensures Split(a, seps) == [a]
  {
    SplitRun(a, [], seps);
    assert a + [] == a;
  }

  lemma SplitFirst(a: string, c: char, s: string, seps: string)
    requires NoneOf(a, seps) && c in seps
    ensures Split(a + [c] + s, seps) == [a] + Split(s, seps)
  {
    SplitRun(a, [c] + s, seps);
    assert a + [c] + s == a + ([c] + s);
    assert ([c] + s)[1..] == s;
    assert ([[]] + Split(s, seps))[1..] == Split(s, seps);
    assert a + [] == a;
  }

  lemma {:induction false} JoinSplit(s: string, sep: char)
    ensures Join(Split(s, [sep]), sep) == s
  {
    if s != [] {
      JoinSplit(s[1..], sep);
      var r := Split(s[1..], [sep]);
      if s[0] == sep {
        assert ([[]] + r)[1..] == r;
      } else if |r| > 1 {
        assert ([[s[0]] + r[0]] + r[1..])[1..] == r[1..];
      }
    }
  }

  // ---------------------------------------------------------------------------------------------
  // strtok_r on strings
  // ---------------------------------------------------------------------------------------------

  /** The first position from `i` on that holds no separator. */
  function PastSeparators(s: string, seps: string, i: nat): (n: nat)
    requires i <= |s|
    ensures i <= n <= |s|
    decreases |s| - i
  {
    if i == |s| || s[i] !in seps then i else PastSeparators(s, seps, i + 1)
  }

  /** The first position from `i` on that holds a separator. */
  function NextSeparator(s: string, seps: string, i: nat): (n: nat)
    requires i <= |s|
    ensures i <= n <= |s|
    decreases |s| - i
  {
    if i == |s| || s[i] in seps then i else NextSeparator(s, seps, i + 1)
  }

  /** strspn: how many leading characters are separators. */
  function Lead(s: string, seps: string): (n: nat)
    ensures n <= |s|
  {
    PastSeparators(s, seps, 0)
  }

  /** strcspn: how many leading characters are not. */
  function Run(s: string, seps: string): (n: nat)
    ensures n <= |s|
  {
    NextSeparator(s, seps, 0)
  }

  datatype Token = NoToken | Token(text: string, rest: string)

  /** One call: skip separators, take the run that follows, drop the separator that ends it. */
  function NextToken(s: string, seps: string): Token {
    var i := Lead(s, seps);
    var j := NextSeparator(s, seps, i);
    if i == |s| then NoToken
    else Token(s[i..j], if j < |s| then s[j + 1..] else [])
  }

  lemma {:induction false} PastSeparatorsIs(s: string, seps: string, i: nat)
    requires i <= |s|
    ensures var n := PastSeparators(s, seps, i);
            (forall k :: i <= k < n ==> s[k] in seps) && (n < |s| ==> s[n] !in seps)
    decreases |s| - i
  {
    if i < |s| && s[i] in seps {
      PastSeparatorsIs(s, seps, i + 1);
    }
  }

  lemma {:induction false} NextSeparatorIs(s: string, seps: string, i: nat)
    requires i <= |s|
    ensures var n := NextSeparator(s, seps, i);
            (forall k :: i <= k < n ==> s[k] !in seps) && (n < |s| ==> s[n] in seps)
    decreases |s| - i
  {
    if i < |s| && s[i] !in seps {
      NextSeparatorIs(s, seps, i + 1);
    }
  }

  lemma LeadMeans(s: string, seps: string, n: nat)
    requires n <= |s| && (forall i :: 0 <= i < n ==> s[i] in seps) && (n < |s| ==> s[n] !in seps)
    ensures Lead(s, seps) == n
  {
    PastSeparatorsIs(s, seps, 0);
  }

  lemma RunMeans(s: string, seps: string, n: nat)
    requires n <= |s| && (forall i :: 0 <= i < n ==> s[i] !in seps) && (n < |s| ==> s[n] in seps)
    ensures Run(s, seps) == n
  {
    NextSeparatorIs(s, seps, 0);
  }

  lemma RunIs(s: string, seps: string)
    ensures var n := Run(s, seps); NoneOf(s[..n], seps) && (n < |s| ==> s[n] in seps)
  {
    NextSeparatorIs(s, seps, 0);
  }

  lemma LeadSkips(s: string, seps: string)
    requires s != [] && s[0] in seps
    ensures Lead(s, seps) == 1 + Lead(s[1..], seps)
  {
    var rest := s[1..];
    var n := Lead(rest, seps);
    PastSeparatorsIs(rest, seps, 0);
    forall i | 0 <= i < n + 1
      ensures s[i] in seps
    {
      assert i > 0 ==> rest[i - 1] in seps;
    }
    LeadMeans(s, seps, n + 1);
  }

  lemma StopMeans(s: string, seps: string, i: nat, n: nat)
    requires i <= n <= |s| && (forall k :: i <= k < n ==> s[k] !in seps) && (n < |s| ==> s[n] in seps)
    ensures NextSeparator(s, seps, i) == n
  {
    NextSeparatorIs(s, seps, i);
  }

  /** The token by its two positions in the text. */
  lemma NextTokenIs(s: string, seps: string, i: nat, j: nat)
    requires i == Lead(s, seps) < |s| && j == NextSeparator(s, seps, i)
    ensures NextToken(s, seps) == Token(s[i..j], if j < |s| then s[j + 1..] else [])
    ensures j < |s| ==> s[j] in seps
  {
    NextSeparatorIs(s, seps, i);
  }

  lemma StopSkips(s: string, seps: string, i: nat)
    requires i < |s|
    ensures NextSeparator(s, seps, 1 + i) == 1 + NextSeparator(s[1..], seps, i)
  {
    var rest := s[1..];
    var n := NextSeparator(rest, seps, i);
    NextSeparatorIs(rest, seps, i);
    forall k | i + 1 <= k < n + 1
      ensures s[k] !in seps
    {
      assert rest[k - 1] !in seps;
    }
    StopMeans(s, seps, i + 1, n + 1);
  }

  lemma ShiftedPieces(s: string, i: nat, j: nat) returns (text: string, rest: string)
    requires s != [] && i <= j < |s|
    ensures text == s[1 + i..1 + j] && rest == if 1 + j < |s| then s[1 + j + 1..] else []
    ensures text == s[1..][i..j] && rest == if j < |s[1..]| then s[1..][j + 1..] else []
  {
    text := s[1 + i..1 + j];
    rest := if 1 + j < |s| then s[1 + j + 1..] else [];
    ShiftedSlice(s, i, j);
    if j + 1 < |s| {
      ShiftedSlice(s, j + 1, |s| - 1);
    }
  }

  lemma ShiftedSlice(s: string, i: nat, j: nat)
    requires s != [] && i <= j < |s|
    ensures s[1..][i..j] == s[1 + i..1 + j]
  {
    var x, y := s[1..][i..j], s[1 + i..1 + j];
    assert forall k :: 0 <= k < j - i ==> x[k] == y[k];
  }

  lemma TokenAt(s: string, seps: string, i: nat, j: nat, text: string, rest: string)
    requires i == Lead(s, seps) && j == NextSeparator(s, seps, i)
    requires text == s[i..j] && rest == if j < |s| then s[j + 1..] else []
    ensures NextToken(s, seps) == if i == |s| then NoToken else Token(text, rest)
  {
  }

  lemma TokenSkips(s: string, seps: string)
    requires s != [] && s[0] in seps
    ensures NextToken(s, seps) == NextToken(s[1..], seps)
  {
    var i := Lead(s[1..], seps);
    var j := NextSeparator(s[1..], seps, i);
    LeadSkips(s, seps);
    StopSkips(s, seps, i);
    var text, rest := ShiftedPieces(s, i, j);
    TokenAt(s[1..], seps, i, j, text, rest);
    TokenAt(s, seps, 1 + i, 1 + j, text, rest);
  }

  /** A separator in front changes no token. */
  lemma SkipSeparator(s: string, seps: string)
    requires s != [] && s[0] in seps
    ensures NextToken(s, seps) == NextToken(s[1..], seps)
    ensures Split(s, seps) == [[]] + Split(s[1..], seps)
    ensures Segments(s, seps) == Segments(s[1..], seps)
  {
    TokenSkips(s, seps);
    NonEmptyCons([], Split(s[1..], seps));
  }

  /** Without one: the token is the leading run. */
  lemma TokenHere(s: string, seps: string)
    requires s != [] && s[0] !in seps
    ensures var n := Run(s, seps); NextToken(s, seps) == Token(s[..n], if n < |s| then s[n + 1..] else [])
    ensures NextToken(s, seps).text != [] && NoneOf(NextToken(s, seps).text, seps)
  {
    assert s[Lead(s, seps)..] == s;
    RunIs(s, seps);
  }

  lemma SplitAtRun(s: string, seps: string)
    ensures var n := Run(s, seps);
            Split(s, seps) == if n < |s| then [s[..n]] + Split(s[n + 1..], seps) else [s]
  {
    var n := Run(s, seps);
    RunIs(s, seps);
    if n < |s| {
      assert s == s[..n] + [s[n]] + s[n + 1..];
      SplitFirst(s[..n], s[n], s[n + 1..], seps);
    } else {
      assert s[..n] == s;
      SplitWhole(s, seps);
    }
  }

  lemma TokenFirst(s: string, seps: string)
    requires s != [] && s[0] !in seps
    ensures NextToken(s, seps).Token?
    ensures var t := NextToken(s, seps);
            if Run(s, seps) < |s| then Split(s, seps) == [t.text] + Split(t.rest, seps)
            else t.rest == [] && Split(s, seps) == [t.text]
  {
    TokenHere(s, seps);
    SplitAtRun(s, seps);
    assert s[..|s|] == s;
  }

  lemma NoSegments(seps: string)
    ensures Segments([], seps) == []
  {
    var empty: string := [];
    NonEmptyCons(empty, []);
    assert [empty] + [] == [empty];
  }

  lemma SegmentsHere(s: string, seps: string)
    requires s != [] && s[0] !in seps
    ensures var t := NextToken(s, seps); t.Token? && Segments(s, seps) == [t.text] + Segments(t.rest, seps)
  {
    TokenHere(s, seps);
    TokenFirst(s, seps);
    NoSegments(seps);
    var t := NextToken(s, seps);
    if Run(s, seps) < |s| {
      NonEmptyCons(t.text, Split(t.rest, seps));
    } else {
      NonEmptyCons(t.text, []);
      assert [t.text] + [] == [t.text];
    }
  }

  /** Repeated strtok_r calls enumerate the non-empty stretches. */
  lemma {:induction false} TokenSegments(s: string, seps: string)
    ensures match NextToken(s, seps)
            case NoToken => Segments(s, seps) == []
            case Token(text, rest) =>
              text != [] && NoneOf(text, seps) && |rest| < |s| && Segments(s, seps) == [text] + Segments(rest, seps)
  {
    if s == [] {
      NoSegments(seps);
    } else if s[0] in seps {
      SkipSeparator(s, seps);
      TokenSegments(s[1..], seps);
    } else {
      TokenHere(s, seps);
      SegmentsHere(s, seps);
    }
  }

  /** Up to `k` tokens in a row. */
  function Tokens(s: string, seps: string, k: nat): seq<string>
    decreases |s|
  {
    if k == 0 then []
    else match NextToken(s, seps)
      case NoToken => []
      case Token(text, rest) => [text] + Tokens(rest, seps, k - 1)
  }

  function Take(parts: seq<string>, k: nat): seq<string> {
    if k <= |parts| then parts[..k] else parts
  }

  lemma TokensStep(s: string, seps: string, k: nat, text: string, rest: string)
    requires k > 0 && NextToken(s, seps) == Token(text, rest)
    ensures Tokens(s, seps, k) == [text] + Tokens(rest, seps, k - 1)
  {
  }

  lemma TakeNothing(parts: seq<string>, k: nat)
    requires k == 0 || parts == []
    ensures Take(parts, k) == []
  {
  }

  lemma TakeCons(first: string, others: seq<string>, parts: seq<string>, k: nat)
    requires k > 0 && parts == [first] + others
    ensures Take(parts, k) == [first] + Take(others, k - 1)
  {
    if k <= |parts| {
      assert parts[..k] == [first] + others[..k - 1];
    }
  }

  /** Tokens, for any way to find the next one. */
  function Repeat(next: string -> Token, s: string, k: nat): seq<string>
    decreases k
  {
    if k == 0 then []
    else match next(s)
      case NoToken => []
      case Token(text, rest) => [text] + Repeat(next, rest, k - 1)
  }

  /** `next` finds the first of the parts, and leaves a text with the others. */
  ghost predicate Enumerates(next: string -> Token, parts: string -> seq<string>) {
    forall s {:trigger next(s)} ::
      match next(s)
      case NoToken => parts(s) == []
      case Token(text, rest) => parts(s) == [text] + parts(rest)
  }

  lemma {:induction false} RepeatTakes(next: string -> Token, parts: string -> seq<string>, s: string, k: nat)
    requires Enumerates(next, parts)
    ensures Repeat(next, s, k) == Take(parts(s), k)
    decreases k
  {
    if k == 0 || next(s) == NoToken {
      TakeNothing(parts(s), k);
    } else {
      var t := next(s);
      RepeatTakes(next, parts, t.rest, k - 1);
      TakeCons(t.text, parts(t.rest), parts(s), k);
    }
  }

  lemma {:induction false} TokensRepeat(s: string, seps: string, k: nat)
    ensures Tokens(s, seps, k) == Repeat((t: string) => NextToken(t, seps), s, k)
    decreases k
  {
    if k > 0 && NextToken(s, seps).Token? {
      TokensRepeat(NextToken(s, seps).rest, seps, k - 1);
    }
  }

  lemma TokensEnumerate(seps: string)
    ensures Enumerates((t: string) => NextToken(t, seps), (t: string) => Segments(t, seps))
  {
    forall s: string {
      TokenSegments(s, seps);
    }
  }

  lemma TokensAreSegments(s: string, seps: string, k: nat)
    ensures Tokens(s, seps, k) == Take(Segments(s, seps), k)
  {
    TokensRepeat(s, seps, k);
    TokensEnumerate(seps);
    RepeatTakes((t: string) => NextToken(t, seps), (t: string) => Segments(t, seps), s, k);
  }
}
