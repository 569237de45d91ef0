/**
Quoting of command-line arguments, and an independent parser for the rules by which Windows programs
split a command line: backslashes are literal unless they precede a quotation mark, 2n of them before
one give n, 2n+1 give n and a literal mark, and two marks inside a quoted part give one. Parsers differ
in whether that double mark also ends the quoted part; the results hold for both kinds.
 */
module CommandLine {
  import opened Common

  const BACKSLASH := '\\'
  const QUOTE := '\"'

  predicate Refused(value: string) { '\0' in value || '\r' in value || '\n' in value }

  function Repeat(c: char, n: nat): (r: string)
    ensures |r| == n && forall i :: 0 <= i < n ==> r[i] == c
  {
    seq(n, _ => c)
  }

  /** What is still to be written for s when so many backslashes have been read but not written. */
  function Escaped(s: string, slashes: nat): string {
    if s == "" then Repeat(BACKSLASH, 2 * slashes)
    else if s[0] == BACKSLASH then Escaped(s[1..], slashes + 1)
    else if s[0] == QUOTE then Repeat(BACKSLASH, 2 * slashes + 1) + [QUOTE] + Escaped(s[1..], 0)
    else Repeat(BACKSLASH, slashes) + [s[0]] + Escaped(s[1..], 0)
  }

  function Quoted(value: string): string { [QUOTE] + Escaped(value, 0) + [QUOTE] }

  /** Quotes one argument; an argument with a NUL or a line break is refused. */
  method Quote(value: string) returns (result: Option<string>)
    ensures result == if Refused(value) then None else Some(Quoted(value))
  {
    if Refused(value) {
      return None;
    }
    var text, slashes := [QUOTE], 0;
    for i := 0 to |value|
      invariant text + Escaped(value[i..], slashes) == [QUOTE] + Escaped(value, 0)
    {
      var character := value[i];
      assert value[i..][0] == character && value[i..][1..] == value[i + 1..];
      if character == BACKSLASH {
        slashes := slashes + 1;
      } else {
        var pending := Repeat(BACKSLASH, if character == QUOTE then 2 * slashes + 1 else slashes) + [character];
        assert text + (pending + Escaped(value[i + 1..], 0)) == text + pending + Escaped(value[i + 1..], 0);
        text := text + pending;
        slashes := 0;
      }
    }
    assert value[|value|..] == "";
    text := text + Repeat(BACKSLASH, 2 * slashes);
    return Some(text + [QUOTE]);
  }

  function Joined(arguments: seq<string>): string {
    if arguments == [] then ""
    else if |arguments| == 1 then Quoted(arguments[0])
    else Quoted(arguments[0]) + " " + Joined(arguments[1..])
  }

  // ------------------------------------------------------------------- parsing

  predicate IsSpace(c: char) { c == ' ' || c == '\t' }

  function LeadingSlashes(s: string): (n: nat)
    ensures n <= |s|
    ensures forall i :: 0 <= i < n ==> s[i] == BACKSLASH
    ensures n < |s| ==> s[n] != BACKSLASH
  {
    if s == "" || s[0] != BACKSLASH then 0 else 1 + LeadingSlashes(s[1..])
  }

  /** One argument's characters from here on, and what follows it. */
  function Scan(s: string, quoted: bool, staysQuoted: bool): (r: (string, string))
    ensures |r.1| <= |s|
    ensures s != "" && (quoted || !IsSpace(s[0])) ==> |r.1| < |s|
    decreases |s|
  {
    if s == "" then ("", "")
    else if !quoted && IsSpace(s[0]) then ("", s)
    else
      var n := LeadingSlashes(s);
      if n < |s| && s[n] == QUOTE then
        var slashes := Repeat(BACKSLASH, n / 2);
        if n % 2 == 1 then
          var (more, rest) := Scan(s[n + 1..], quoted, staysQuoted);
          (slashes + [QUOTE] + more, rest)
        else if quoted && n + 1 < |s| && s[n + 1] == QUOTE then
          var (more, rest) := Scan(s[n + 2..], staysQuoted, staysQuoted);
          (slashes + [QUOTE] + more, rest)
        else
          var (more, rest) := Scan(s[n + 1..], !quoted, staysQuoted);
          (slashes + more, rest)
      else if n > 0 then
        var (more, rest) := Scan(s[n..], quoted, staysQuoted);
        (Repeat(BACKSLASH, n) + more, rest)
      else
        var (more, rest) := Scan(s[1..], quoted, staysQuoted);
        ([s[0]] + more, rest)
  }

  /** Splits what follows the program name into arguments. */
  function Arguments(line: string, staysQuoted: bool): seq<string>
    decreases |line|
  {
    if line == "" then []
    else if IsSpace(line[0]) then Arguments(line[1..], staysQuoted)
    else
      var (argument, rest) := Scan(line, false, staysQuoted);
      [argument] + Arguments(rest, staysQuoted)
  }

  /** Backslashes at the front are counted whatever follows them. */
  lemma {:induction false} SlashesThen(n: nat, rest: string)
    requires rest != "" && rest[0] != BACKSLASH
    ensures LeadingSlashes(Repeat(BACKSLASH, n) + rest) == n
  {
    var s := Repeat(BACKSLASH, n) + rest;
    var m := LeadingSlashes(s);
    assert s[n] == rest[0];
    assert forall i :: 0 <= i < n ==> s[i] == BACKSLASH;
  }

  /** Where a quoted argument ends: at the end of the line or before a space. */
  predicate Ends(after: string) { after == "" || IsSpace(after[0]) }

  lemma ScanAtMark(s: string, n: nat, quoted: bool, staysQuoted: bool)
    requires n < |s| && n == LeadingSlashes(s) && s[n] == QUOTE
    ensures Scan(s, quoted, staysQuoted)
         == if n % 2 == 1 then
              var (more, rest) := Scan(s[n + 1..], quoted, staysQuoted);
              (Repeat(BACKSLASH, n / 2) + [QUOTE] + more, rest)
            else if quoted && n + 1 < |s| && s[n + 1] == QUOTE then
              var (more, rest) := Scan(s[n + 2..], staysQuoted, staysQuoted);
              (Repeat(BACKSLASH, n / 2) + [QUOTE] + more, rest)
            else
              var (more, rest) := Scan(s[n + 1..], !quoted, staysQuoted);
              (Repeat(BACKSLASH, n / 2) + more, rest)
  {
    hide Repeat;
    assert !IsSpace(s[0]);
  }

  lemma ScanSlashes(s: string, n: nat, staysQuoted: bool)
    requires 0 < n < |s| && n == LeadingSlashes(s) && s[n] != QUOTE
    ensures var next := Scan(s[n..], true, staysQuoted);
      Scan(s, true, staysQuoted) == (Repeat(BACKSLASH, n) + next.0, next.1)
  {
    hide Repeat;
  }

  lemma ScanCharacter(s: string, staysQuoted: bool)
    requires s != "" && s[0] != BACKSLASH && s[0] != QUOTE
    ensures var next := Scan(s[1..], true, staysQuoted);
      Scan(s, true, staysQuoted) == ([s[0]] + next.0, next.1)
  {
    hide Repeat;
  }

  /** An even run of backslashes before a mark opens or closes, an odd one makes the mark literal. */
  lemma ScanMark(k: nat, odd: bool, after: string, quoted: bool, staysQuoted: bool)
    requires odd || !quoted || after == "" || after[0] != QUOTE
    ensures var s := Repeat(BACKSLASH, 2 * k + if odd then 1 else 0) + ([QUOTE] + after);
      var next := Scan(after, if odd then quoted else !quoted, staysQuoted);
      Scan(s, quoted, staysQuoted) == (Repeat(BACKSLASH, k) + (if odd then [QUOTE] else []) + next.0, next.1)
  {
    hide Scan;
    var n := 2 * k + if odd then 1 else 0;
    var s := Repeat(BACKSLASH, n) + ([QUOTE] + after);
    SlashesThen(n, [QUOTE] + after);
    assert s[n] == QUOTE && s[n + 1..] == after && n / 2 == k;
    assert n + 1 < |s| ==> s[n + 1] == after[0];
    ScanAtMark(s, n, quoted, staysQuoted);
    if !odd {
      assert Repeat(BACKSLASH, k) + [] == Repeat(BACKSLASH, k);
    }
  }

  lemma ScanPlain(k: nat, c: char, after: string, staysQuoted: bool)
    requires c != BACKSLASH && c != QUOTE
    ensures var s := Repeat(BACKSLASH, k) + ([c] + after);
      var next := Scan(after, true, staysQuoted);
      Scan(s, true, staysQuoted) == (Repeat(BACKSLASH, k) + [c] + next.0, next.1)
  {
    hide Scan;
    var tail := [c] + after;
    var s, next := Repeat(BACKSLASH, k) + tail, Scan(after, true, staysQuoted);
    SlashesThen(k, tail);
    assert tail[1..] == after && s[k..] == tail && s[k] == c;
    ScanCharacter(tail, staysQuoted);
    if k == 0 {
      assert s == tail && Repeat(BACKSLASH, 0) + [c] == [c];
    } else {
      ScanSlashes(s, k, staysQuoted);
      assert Repeat(BACKSLASH, k) + ([c] + next.0) == Repeat(BACKSLASH, k) + [c] + next.0;
    }
  }

  /** Inside quotes, the escaped rest of an argument scans back to that rest, and the closing mark ends it. */
  lemma {:induction false} EscapedScansBack(s: string, slashes: nat, after: string, staysQuoted: bool)
    requires Ends(after)
    ensures Scan(Escaped(s, slashes) + ([QUOTE] + after), true, staysQuoted) == (Repeat(BACKSLASH, slashes) + s, after)
    decreases |s|
  {
    hide Scan;
    if s == "" {
      ScanMark(slashes, false, after, true, staysQuoted);
      ScanEnds(after, staysQuoted);
      assert Repeat(BACKSLASH, slashes) + [] + "" == Repeat(BACKSLASH, slashes) + s;
    } else if s[0] == BACKSLASH {
      EscapedScansBack(s[1..], slashes + 1, after, staysQuoted);
      assert Repeat(BACKSLASH, slashes + 1) + s[1..] == Repeat(BACKSLASH, slashes) + s;
    } else {
      EscapedScansBack(s[1..], 0, after, staysQuoted);
      assert Repeat(BACKSLASH, 0) + s[1..] == s[1..];
      ScanStep(s, slashes, after, staysQuoted);
    }
  }

  lemma Regroup(a: string, b: string, c: string, d: string)
    ensures a + b + c + d == a + (b + (c + d))
  {
  }

  lemma ScanStep(s: string, slashes: nat, after: string, staysQuoted: bool)
    requires s != "" && s[0] != BACKSLASH
    requires Scan(Escaped(s[1..], 0) + ([QUOTE] + after), true, staysQuoted) == (s[1..], after)
    ensures Scan(Escaped(s, slashes) + ([QUOTE] + after), true, staysQuoted) == (Repeat(BACKSLASH, slashes) + s, after)
  {
    hide Scan;
    var rest := Escaped(s[1..], 0) + ([QUOTE] + after);
    var c, n := s[0], if s[0] == QUOTE then 2 * slashes + 1 else slashes;
    assert Escaped(s, slashes) == Repeat(BACKSLASH, n) + [c] + Escaped(s[1..], 0);
    hide Escaped, Repeat;
    Regroup(Repeat(BACKSLASH, n), [c], Escaped(s[1..], 0), [QUOTE] + after);
    assert Repeat(BACKSLASH, slashes) + [c] + s[1..] == Repeat(BACKSLASH, slashes) + s by {
      assert [c] + s[1..] == s;
      Regroup(Repeat(BACKSLASH, slashes), [c], s[1..], "");
    }
    if c == QUOTE {
      ScanMark(slashes, true, rest, true, staysQuoted);
    } else {
      ScanPlain(slashes, c, rest, staysQuoted);
    }
  }

  lemma ScanEnds(after: string, staysQuoted: bool)
    requires Ends(after)
    ensures Scan(after, false, staysQuoted) == ("", after)
  {
  }

  lemma QuotedScansBack(value: string, after: string, staysQuoted: bool)
    requires Ends(after)
    ensures Scan(Quoted(value) + after, false, staysQuoted) == (value, after)
  {
    hide Scan;
    var rest := Escaped(value, 0) + ([QUOTE] + after);
    EscapedScansBack(value, 0, after, staysQuoted);
    ScanMark(0, false, rest, false, staysQuoted);
    assert Quoted(value) + after == Repeat(BACKSLASH, 0) + ([QUOTE] + rest);
    assert Repeat(BACKSLASH, 0) + [] + (Repeat(BACKSLASH, 0) + value) == value;
  }

  /** What follows the first of some joined arguments. */
  function Following(rest: seq<string>): string { if rest == [] then "" else " " + Joined(rest) }

  lemma FirstJoined(first: string, rest: seq<string>)
    ensures Joined([first] + rest) == Quoted(first) + Following(rest)
  {
    hide Quoted;
    assert ([first] + rest)[1..] == rest;
    if rest == [] {
      assert Quoted(first) + "" == Quoted(first);
    } else {
      assert Quoted(first) + " " + Joined(rest) == Quoted(first) + (" " + Joined(rest));
    }
  }

  lemma FirstArgument(first: string, after: string, staysQuoted: bool)
    requires Ends(after)
    ensures Arguments(Quoted(first) + after, staysQuoted) == [first] + Arguments(after, staysQuoted)
  {
    hide Scan, Escaped;
    QuotedScansBack(first, after, staysQuoted);
  }

  lemma {:induction false} ArgumentsFollow(rest: seq<string>, staysQuoted: bool)
    ensures Arguments(Following(rest), staysQuoted) == rest
    decreases |rest|, 1
  {
    if rest != [] {
      hide Scan, Joined;
      QuotingRoundTrips(rest, staysQuoted);
      assert (" " + Joined(rest))[1..] == Joined(rest);
    }
  }

  /** Round trip: parsing the quoted, space-joined arguments returns exactly the arguments. */
  lemma {:induction false} QuotingRoundTrips(arguments: seq<string>, staysQuoted: bool)
    ensures Arguments(Joined(arguments), staysQuoted) == arguments
    decreases |arguments|, 0
  {
    if arguments != [] {
      var first, rest := arguments[0], arguments[1..];
      assert arguments == [first] + rest;
      assert Ends(Following(rest));
      hide Scan, Escaped, Joined, Quoted, Following, Arguments;
      FirstJoined(first, rest);
      FirstArgument(first, Following(rest), staysQuoted);
      ArgumentsFollow(rest, staysQuoted);
    }
  }

  // -------------------------------------------------------------- the program name

  function UntilQuote(s: string): string {
    if s == "" || s[0] == QUOTE then "" else [s[0]] + UntilQuote(s[1..])
  }

  /** The first word of a command line follows a rule of its own: quoted, it runs to the next mark. */
  function ProgramName(line: string): string
    requires line != "" && line[0] == QUOTE
  {
    UntilQuote(line[1..])
  }

  lemma {:induction false} UntilQuoteStops(s: string, after: string)
    requires QUOTE !in s
    ensures UntilQuote(s + ([QUOTE] + after)) == s
  {
    if s != "" {
      UntilQuoteStops(s[1..], after);
      assert (s + ([QUOTE] + after))[1..] == s[1..] + ([QUOTE] + after);
    }
  }

  lemma {:induction false} UntilQuoteHasNone(s: string)
    ensures QUOTE !in UntilQuote(s)
  {
    if s != "" && s[0] != QUOTE {
      UntilQuoteHasNone(s[1..]);
    }
  }

  /** How many backslashes end s, counting those read before it if it has nothing else. */
  function Trailing(s: string, slashes: nat): nat {
    if s == "" then slashes
    else if s[0] == BACKSLASH then Trailing(s[1..], slashes + 1)
    else Trailing(s[1..], 0)
  }

  lemma {:induction false} TrailingEnds(s: string, slashes: nat)
    ensures Trailing(s, slashes) == 0 <==> if s == "" then slashes == 0 else s[|s| - 1] != BACKSLASH
  {
    if s != "" {
      TrailingEnds(s[1..], if s[0] == BACKSLASH then slashes + 1 else 0);
      assert |s| > 1 ==> s[1..][|s| - 2] == s[|s| - 1];
    }
  }

  /** Without quotation marks only the trailing backslashes are changed: they are doubled. */
  lemma {:induction false} PlainEscapes(s: string, slashes: nat)
    requires QUOTE !in s
    ensures Escaped(s, slashes) == Repeat(BACKSLASH, slashes) + s + Repeat(BACKSLASH, Trailing(s, slashes))
    decreases |s|
  {
    if s == "" {
      assert Repeat(BACKSLASH, 2 * slashes) == Repeat(BACKSLASH, slashes) + s + Repeat(BACKSLASH, slashes);
    } else {
      assert QUOTE !in s[1..] && s[0] in s;
      var more := Repeat(BACKSLASH, Trailing(s, slashes));
      if s[0] == BACKSLASH {
        PlainEscapes(s[1..], slashes + 1);
        assert Repeat(BACKSLASH, slashes + 1) + s[1..] + more == Repeat(BACKSLASH, slashes) + s + more;
      } else {
        PlainEscapes(s[1..], 0);
        assert Repeat(BACKSLASH, slashes) + [s[0]] + (Repeat(BACKSLASH, 0) + s[1..] + more)
            == Repeat(BACKSLASH, slashes) + s + more;
      }
    }
  }

  /** The round trip does not extend to the program name: it holds exactly without marks and a final backslash. */
  lemma ProgramNameRoundTrip(value: string, after: string)
    ensures ProgramName(Quoted(value) + after) == value <==>
      QUOTE !in value && !(value != "" && value[|value| - 1] == BACKSLASH)
  {
    var escaped := Escaped(value, 0);
    assert (Quoted(value) + after)[1..] == escaped + ([QUOTE] + after);
    if QUOTE in value {
      UntilQuoteHasNone(escaped + ([QUOTE] + after));
    } else {
      PlainEscapes(value, 0);
      TrailingEnds(value, 0);
      var more := Repeat(BACKSLASH, Trailing(value, 0));
      assert escaped == value + more by {
        assert Repeat(BACKSLASH, 0) + value + more == value + more;
      }
      UntilQuoteStops(escaped, after);
    }
  }

  function PastQuote(s: string): string {
    if s == "" then "" else if s[0] == QUOTE then s[1..] else PastQuote(s[1..])
  }

  /** A whole command line split into its program name and its arguments. */
  function Split(line: string, staysQuoted: bool): (string, seq<string>)
    requires line != "" && line[0] == QUOTE
  {
    (ProgramName(line), Arguments(PastQuote(line[1..]), staysQuoted))
  }

  lemma {:induction false} PastQuoteContinues(s: string, after: string)
    requires QUOTE !in s
    ensures PastQuote(s + ([QUOTE] + after)) == after
  {
    if s != "" {
      PastQuoteContinues(s[1..], after);
      assert (s + ([QUOTE] + after))[1..] == s[1..] + ([QUOTE] + after);
    }
  }

  lemma QuotedPlainly(value: string, after: string)
    requires QUOTE !in value && !(value != "" && value[|value| - 1] == BACKSLASH)
    ensures (Quoted(value) + after)[1..] == value + ([QUOTE] + after)
  {
    hide Escaped, Repeat, Trailing;
    PlainEscapes(value, 0);
    TrailingEnds(value, 0);
    assert Repeat(BACKSLASH, 0) == "";
    assert "" + value + "" == value;
    assert ([QUOTE] + value + [QUOTE] + after)[1..] == value + ([QUOTE] + after);
  }

  /**
  The command line of a new process, application and arguments joined, splits back into both exactly
  when the application's path has no mark and no final backslash, as a path to an executable file has none.
   */
  lemma CommandLineRoundTrips(application: string, arguments: seq<string>, staysQuoted: bool)
    ensures Joined([application] + arguments) != "" && Joined([application] + arguments)[0] == QUOTE
    ensures Split(Joined([application] + arguments), staysQuoted) == (application, arguments) <==>
      QUOTE !in application && !(application != "" && application[|application| - 1] == BACKSLASH)
  {
    var after := Following(arguments);
    FirstJoined(application, arguments);
    hide Scan, Joined, Escaped, Following;
    ProgramNameRoundTrip(application, after);
    if QUOTE !in application && !(application != "" && application[|application| - 1] == BACKSLASH) {
      QuotedPlainly(application, after);
      PastQuoteContinues(application, after);
      ArgumentsFollow(arguments, staysQuoted);
    }
  }
}
