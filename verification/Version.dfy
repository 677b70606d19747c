/** Tag parsing, printing and bumping (scripts/ci/git_utils.py, scripts/ci/bump_version.py). */
module Version {
  import opened Base
  import opened Text
  import Grammar

  datatype Triple = Triple(major: int, minor: int, patch: int)

  /** parse_version's outcomes: a triple, or one of the two exceptions it can raise. */
  datatype Parsed = Parsed(version: Triple) | ValueError | IndexError

  const DIGITS := "0123456789"

  predicate AllDigits(s: string) {
    forall i :: 0 <= i < |s| ==> '0' <= s[i] <= '9'
  }

  /** The value of a digit string. */
  function NatOf(s: string): nat
    requires AllDigits(s)
  {
    if s == [] then 0 else NatOf(s[..|s| - 1]) * 10 + (s[|s| - 1] as int - '0' as int)
  }

  /** Reading an integer, as Python's int() does: it accepts more than what printing produces (signs, leading
      zeros, underscores, spaces, other scripts' digits), so it is a parameter of everything below. */
  type IntReader = string -> Option<int>

  /** All that is asked of it: that it reads back a printed integer. */
  ghost predicate ReadsBack(toInt: IntReader) {
    forall n :: toInt(PrintInt(n)) == Some(n)
  }

  /** One such reader: an optional sign and ASCII digits. */
  function ParseInt(s: string): Option<int> {
    if s == [] then None
    else
      var digits := if s[0] == '+' || s[0] == '-' then s[1..] else s;
      if digits == [] || !AllDigits(digits) then None
      else Some(if s[0] == '-' then 0 - NatOf(digits) else NatOf(digits))
  }

  /** The dot-separated parts of a tag, as a version. */
  function FromParts(toInt: IntReader, parts: seq<string>): Parsed {
    if exists i :: 0 <= i < |parts| && toInt(parts[i]) == None then ValueError
    else if |parts| == 2 then Parsed(Triple(toInt(parts[0]).value, toInt(parts[1]).value, 0))
    else if |parts| == 3 then
      Parsed(Triple(toInt(parts[0]).value, toInt(parts[1]).value, toInt(parts[2]).value))
    else ValueError
  }

  /** parse_version. An empty string fails at `version[0]`, which is not a ValueError. */
  function ParseVersion(toInt: IntReader, tag: string): Parsed {
    if tag == [] then IndexError
    else if tag[0] != 'v' then ValueError
    else FromParts(toInt, Split(tag[1..], "."))
  }

  function PrintNat(n: nat): (s: string)
    ensures s != [] && AllDigits(s) && NatOf(s) == n
  {
    if n < 10 then [DIGITS[n]]
    else
      var s := PrintNat(n / 10) + [DIGITS[n % 10]];
      assert s[..|s| - 1] == PrintNat(n / 10);
      s
  }

  function PrintInt(n: int): string {
    if n < 0 then "-" + PrintNat(-n) else PrintNat(n)
  }

  /** version_to_string. */
  function PrintVersion(t: Triple): string {
    "v" + (PrintInt(t.major) + "." + PrintInt(t.minor) + "." + PrintInt(t.patch))
  }

  /** Python's order on tuples. */
  predicate Less(a: Triple, b: Triple) {
    || a.major < b.major
    || (a.major == b.major && a.minor < b.minor)
    || (a.major == b.major && a.minor == b.minor && a.patch < b.patch)
  }

  function Bump(t: Triple): Triple {
    Triple(t.major, t.minor, t.patch + 1)
  }

  // ---------------------------------------------------------------------------------------------
  // Round trip
  // ---------------------------------------------------------------------------------------------

  lemma NoDots(n: int)
    ensures NoneOf(PrintInt(n), ".")
  {
    var s := PrintInt(n);
    forall c | c in s
      ensures c != '.'
    {
      var i :| 0 <= i < |s| && s[i] == c;
      assert n < 0 && i > 0 ==> c == PrintNat(-n)[i - 1];
    }
  }

  lemma ParseIntReadsBack()
    ensures ReadsBack(ParseInt)
  {
    forall n: int
      ensures ParseInt(PrintInt(n)) == Some(n)
    {
      assert n < 0 ==> PrintInt(n)[1..] == PrintNat(-n);
    }
  }

  lemma SplitTwo(a: string, b: string)
    requires NoneOf(a, ".") && NoneOf(b, ".")
    ensures Split(a + "." + b, ".") == [a, b]
  {
    SplitFirst(a, '.', b, ".");
    SplitWhole(b, ".");
  }

  lemma SplitThree(a: string, b: string, c: string)
    requires NoneOf(a, ".") && NoneOf(b, ".") && NoneOf(c, ".")
    ensures Split(a + "." + b + "." + c, ".") == [a, b, c]
  {
    assert a + "." + b + "." + c == a + ['.'] + (b + ['.'] + c);
    SplitFirst(a, '.', b + ['.'] + c, ".");
    SplitTwo(b, c);
  }

  lemma ParseAfterV(toInt: IntReader, rest: string)
    ensures ParseVersion(toInt, "v" + rest) == FromParts(toInt, Split(rest, "."))
  {
    assert ("v" + rest)[1..] == rest;
  }

  lemma FromIntegers(toInt: IntReader, a: string, b: string, c: string, t: Triple)
    requires toInt(a) == Some(t.major) && toInt(b) == Some(t.minor) && toInt(c) == Some(t.patch)
    ensures FromParts(toInt, [a, b, c]) == Parsed(t)
    ensures FromParts(toInt, [a, b]) == Parsed(t.(patch := 0))
  {
    var three, two := [a, b, c], [a, b];
    assert forall i :: 0 <= i < 3 ==> toInt(three[i]).Some?;
    assert forall i :: 0 <= i < 2 ==> toInt(two[i]).Some?;
  }

  /** Printing and parsing is the identity on all triples of integers, for every reader that reads back what
      is printed. */
  lemma VersionRoundTrip(toInt: IntReader, t: Triple)
    requires ReadsBack(toInt)
    ensures ParseVersion(toInt, PrintVersion(t)) == Parsed(t)
  {
    NoDots(t.major);
    NoDots(t.minor);
    NoDots(t.patch);
    var a, b, c := PrintInt(t.major), PrintInt(t.minor), PrintInt(t.patch);
    ParseAfterV(toInt, a + "." + b + "." + c);
    SplitThree(a, b, c);
    FromIntegers(toInt, a, b, c, t);
  }

  /** A two-part tag reads as patch 0, and the tag printed after it ends in 1. */
  lemma TwoPartTag(toInt: IntReader, major: int, minor: int)
    requires ReadsBack(toInt)
    ensures ParseVersion(toInt, "v" + (PrintInt(major) + "." + PrintInt(minor))) == Parsed(Triple(major, minor, 0))
    ensures PrintVersion(Bump(Triple(major, minor, 0))) == "v" + (PrintInt(major) + "." + PrintInt(minor) + "." + "1")
  {
    assert PrintNat(1) == "1";
    NoDots(major);
    NoDots(minor);
    var a, b := PrintInt(major), PrintInt(minor);
    ParseAfterV(toInt, a + "." + b);
    SplitTwo(a, b);
    FromIntegers(toInt, a, b, a, Triple(major, minor, major));
  }

  /** The comment's vX.Y.0 is what is printed after a version exactly if its patch number is -1. */
  lemma PatchZeroIff(toInt: IntReader, t: Triple)
    requires ReadsBack(toInt)
    ensures PrintVersion(Bump(t)) == PrintVersion(Triple(t.major, t.minor, 0)) <==> t.patch == -1
  {
    VersionRoundTrip(toInt, Bump(t));
    VersionRoundTrip(toInt, Triple(t.major, t.minor, 0));
  }

  // ---------------------------------------------------------------------------------------------
  // The latest tag, and a fresh one
  // ---------------------------------------------------------------------------------------------

  const ZERO := Triple(0, 0, 0)

  /** `latest` is the greatest of 0.0.0 and the well-formed tags. */
  ghost predicate IsLatest(toInt: IntReader, latest: Triple, tags: seq<string>) {
    && !Less(latest, ZERO)
    && (latest == ZERO || exists tag :: tag in tags && ParseVersion(toInt, tag) == Parsed(latest))
    && forall tag :: tag in tags && ParseVersion(toInt, tag).Parsed? ==> !Less(latest, ParseVersion(toInt, tag).version)
  }

  lemma LatestSnoc(toInt: IntReader, latest: Triple, tags: seq<string>, tag: string)
    requires IsLatest(toInt, latest, tags)
    ensures !ParseVersion(toInt, tag).Parsed? ==> IsLatest(toInt, latest, tags + [tag])
    ensures ParseVersion(toInt, tag).Parsed? ==>
              var version := ParseVersion(toInt, tag).version;
              IsLatest(toInt, if Less(latest, version) then version else latest, tags + [tag])
  {
    assert forall other :: other in tags + [tag] <==> other in tags || other == tag;
  }

  /** get_latest_tag over the lines of `git tag`. Malformed tags are skipped; an empty line's IndexError
      escapes (None). */
  method LatestTag(toInt: IntReader, tags: seq<string>) returns (latest: Option<Triple>)
    ensures latest == None <==> "" in tags
    ensures latest.Some? ==> IsLatest(toInt, latest.value, tags)
  {
    var best := ZERO;
    for i := 0 to |tags|
      invariant IsLatest(toInt, best, tags[..i]) && "" !in tags[..i]
    {
      LatestSnoc(toInt, best, tags[..i], tags[i]);
      assert tags[..i + 1] == tags[..i] + [tags[i]];
      match ParseVersion(toInt, tags[i]) {
        case IndexError =>
          return None;
        case ValueError =>
        case Parsed(version) =>
          if Less(best, version) {
            best := version;
          }
      }
    }
    assert tags[..|tags|] == tags;
    return Some(best);
  }

  /** The bumped version's tag parses strictly above every well-formed tag, so it is a new tag. */
  lemma BumpIsFresh(toInt: IntReader, latest: Triple, tags: seq<string>)
    requires ReadsBack(toInt) && IsLatest(toInt, latest, tags)
    ensures ParseVersion(toInt, PrintVersion(Bump(latest))) == Parsed(Bump(latest))
    ensures forall tag :: tag in tags && ParseVersion(toInt, tag).Parsed? ==>
              Less(ParseVersion(toInt, tag).version, Bump(latest))
    ensures PrintVersion(Bump(latest)) !in tags
  {
    VersionRoundTrip(toInt, Bump(latest));
  }

  /** The first tag is v0.0.1: without a well-formed tag above 0.0.0, bumping does not fail. */
  lemma FirstTag(toInt: IntReader, latest: Triple, tags: seq<string>)
    requires ReadsBack(toInt) && IsLatest(toInt, latest, tags)
    ensures PrintVersion(Bump(latest)) == "v0.0.1" <==>
            forall tag :: tag in tags && ParseVersion(toInt, tag).Parsed? ==>
              !Less(ZERO, ParseVersion(toInt, tag).version)
  {
    assert PrintNat(0) == "0" && PrintNat(1) == "1";
    assert PrintVersion(Triple(0, 0, 1)) == "v0.0.1";
    VersionRoundTrip(toInt, Bump(latest));
    VersionRoundTrip(toInt, Triple(0, 0, 1));
  }

  // ---------------------------------------------------------------------------------------------
  // Which tags are well formed, and how versions are ordered
  // ---------------------------------------------------------------------------------------------

  /** A tag spelled out: 'v', then two or three integers with dots between them. */
  ghost predicate Spells(toInt: IntReader, tag: string, t: Triple) {
    || (t.patch == 0 && exists a, b :: SpellsTwo(toInt, tag, t, a, b))
    || (exists a, b, c :: SpellsThree(toInt, tag, t, a, b, c))
  }

  ghost predicate SpellsTwo(toInt: IntReader, tag: string, t: Triple, a: string, b: string) {
    && NoneOf(a, ".") && NoneOf(b, ".")
    && tag == "v" + (a + "." + b)
    && toInt(a) == Some(t.major) && toInt(b) == Some(t.minor)
  }

  ghost predicate SpellsThree(toInt: IntReader, tag: string, t: Triple, a: string, b: string, c: string) {
    && NoneOf(a, ".") && NoneOf(b, ".") && NoneOf(c, ".")
    && tag == "v" + (a + "." + b + "." + c)
    && toInt(a) == Some(t.major) && toInt(b) == Some(t.minor) && toInt(c) == Some(t.patch)
  }

  lemma SpelledParses(toInt: IntReader, tag: string, t: Triple)
    requires Spells(toInt, tag, t)
    ensures ParseVersion(toInt, tag) == Parsed(t)
  {
    if t.patch == 0 && exists a, b :: SpellsTwo(toInt, tag, t, a, b) {
      var a, b :| SpellsTwo(toInt, tag, t, a, b);
      ParseAfterV(toInt, a + "." + b);
      SplitTwo(a, b);
      FromTwo(toInt, a, b, t);
    } else {
      var a, b, c :| SpellsThree(toInt, tag, t, a, b, c);
      ParseAfterV(toInt, a + "." + b + "." + c);
      SplitThree(a, b, c);
      FromIntegers(toInt, a, b, c, t);
    }
  }

  lemma FromTwo(toInt: IntReader, a: string, b: string, t: Triple)
    requires toInt(a) == Some(t.major) && toInt(b) == Some(t.minor) && t.patch == 0
    ensures FromParts(toInt, [a, b]) == Parsed(t)
  {
    var two := [a, b];
    assert forall i :: 0 <= i < 2 ==> toInt(two[i]).Some?;
  }

  lemma PartsHaveNoDots(s: string)
    ensures forall i :: 0 <= i < |Split(s, ".")| ==> NoneOf(Split(s, ".")[i], ".")
  {
    forall i | 0 <= i < |Split(s, ".")|
      ensures NoneOf(Split(s, ".")[i], ".")
    {
      Grammar.SplitChars(s, ".", Split(s, ".")[i]);
    }
  }

  lemma JoinTwo(a: string, b: string)
    ensures Join([a, b], '.') == a + "." + b
  {
    assert [a, b][1..] == [b];
  }

  lemma JoinThree(a: string, b: string, c: string)
    ensures Join([a, b, c], '.') == a + "." + b + "." + c
  {
    JoinTwo(b, c);
    assert [a, b, c][1..] == [b, c];
    Associate(a + ".", b + ".", c);
    Associate(a + ".", b, ".");
    Associate(b, ".", c);
  }

  lemma ParsedParts(toInt: IntReader, parts: seq<string>)
    requires FromParts(toInt, parts).Parsed?
    ensures forall i :: 0 <= i < |parts| ==> toInt(parts[i]).Some?
    ensures var t := FromParts(toInt, parts).version;
            || (|parts| == 2 && toInt(parts[0]) == Some(t.major) && toInt(parts[1]) == Some(t.minor) && t.patch == 0)
            || (|parts| == 3 && toInt(parts[0]) == Some(t.major) && toInt(parts[1]) == Some(t.minor)
                             && toInt(parts[2]) == Some(t.patch))
  {
  }

  lemma ParsedIsSpelled(toInt: IntReader, tag: string)
    requires ParseVersion(toInt, tag).Parsed?
    ensures Spells(toInt, tag, ParseVersion(toInt, tag).version)
  {
    var rest, t := tag[1..], ParseVersion(toInt, tag).version;
    var parts := Split(rest, ".");
    ParsedParts(toInt, parts);
    PartsHaveNoDots(rest);
    JoinSplit(rest, '.');
    assert tag == "v" + rest && ['.'] == ".";
    if |parts| == 2 {
      JoinTwo(parts[0], parts[1]);
      assert parts == [parts[0], parts[1]];
      assert SpellsTwo(toInt, tag, t, parts[0], parts[1]);
    } else {
      JoinThree(parts[0], parts[1], parts[2]);
      assert parts == [parts[0], parts[1], parts[2]];
      assert SpellsThree(toInt, tag, t, parts[0], parts[1], parts[2]);
    }
  }

  /** Exactly the tags that are a 'v' and two or three integers with dots between them parse, to those integers;
      the empty tag raises IndexError, and any other ValueError. */
  lemma ParsesIff(toInt: IntReader, tag: string, t: Triple)
    ensures ParseVersion(toInt, tag) == Parsed(t) <==> Spells(toInt, tag, t)
    ensures ParseVersion(toInt, tag) == IndexError <==> tag == ""
  {
    if ParseVersion(toInt, tag) == Parsed(t) {
      ParsedIsSpelled(toInt, tag);
    }
    if Spells(toInt, tag, t) {
      SpelledParses(toInt, tag, t);
    }
  }

  function Numbers(t: Triple): seq<int> {
    [t.major, t.minor, t.patch]
  }

  ghost predicate FirstSmallerAt(a: Triple, b: Triple, k: nat)
    requires k < 3
  {
    Numbers(a)[k] < Numbers(b)[k] && forall i :: 0 <= i < k ==> Numbers(a)[i] == Numbers(b)[i]
  }

  /** The order is that of the first number that differs. */
  lemma LessIff(a: Triple, b: Triple)
    ensures Less(a, b) <==> exists k :: 0 <= k < 3 && FirstSmallerAt(a, b, k)
  {
    var x, y := Numbers(a), Numbers(b);
    assert x[0] == a.major && x[1] == a.minor && x[2] == a.patch;
    assert y[0] == b.major && y[1] == b.minor && y[2] == b.patch;
    if Less(a, b) {
      var k := if a.major != b.major then 0 else if a.minor != b.minor then 1 else 2;
      assert FirstSmallerAt(a, b, k);
    }
  }

  /** Integers are printed in base ten. */
  lemma PrintsDecimal(n: nat, d: nat)
    requires d <= 9
    ensures PrintNat(d) == ["0123456789"[d]]
    ensures n > 0 ==> PrintNat(10 * n + d) == PrintNat(n) + ["0123456789"[d]]
  {
    assert (10 * n + d) / 10 == n && (10 * n + d) % 10 == d;
  }

  /** With a minus sign in front of the negative ones. */
  lemma PrintsSign(k: int)
    requires k > 0
    ensures PrintInt(k) == PrintNat(k) && PrintInt(-k) == "-" + PrintNat(k) && PrintInt(0) == "0"
  {
  }
}
