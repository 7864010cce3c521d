/**
 * The batch user-creation script: which lines of the user list it reads, how a
 * line becomes an e-mail address and a name, which addresses it accepts, and
 * how it counts the outcomes of creating the accepted users one by one.
 */
module BatchCreateUsers {
  import opened Text

  // ---------------------------------------------------------------------------
  // Lines
  // ---------------------------------------------------------------------------

  /** A line is read unless it is blank or, once trimmed, a `#` comment. */
  predicate KeepLine(line: string) {
    Trim(line) != "" && !StartsWith(Trim(line), "#")
  }

  function FilterLines(lines: seq<string>): (kept: seq<string>)
    ensures |kept| <= |lines|
    ensures forall k :: 0 <= k < |kept| ==> KeepLine(kept[k])
    ensures forall line :: line in lines && KeepLine(line) ==> line in kept
    ensures forall line :: line in kept ==> line in lines
  {
    if lines == [] then []
    else (if KeepLine(lines[0]) then [lines[0]] else []) + FilterLines(lines[1..])
  }

  /** The lines of the file the parser sees. */
  function ReadLines(content: string): seq<string> {
    FilterLines(Split(content, '\n'))
  }

  // ---------------------------------------------------------------------------
  // E-mail addresses
  // ---------------------------------------------------------------------------

  predicate PlainChar(c: char) {
    !IsSpace(c) && c != '@'
  }

  predicate AllPlain(s: string) {
    forall k :: 0 <= k < |s| ==> PlainChar(s[k])
  }

  /**
   * `/^[^\s@]+@[^\s@]+\.[^\s@]+$/`: a non-empty local part, `@`, a non-empty
   * part, a dot and a non-empty last part, none of them holding white space or `@`.
   */
  predicate MatchesEmailPattern(e: string) {
    exists at: nat, dot: nat | 0 < at && at + 1 < dot < |e| - 1 ::
      e[at] == '@' && e[dot] == '.' && AllPlain(e[..at]) && AllPlain(e[at + 1..dot]) && AllPlain(e[dot + 1..])
  }

  /** The same test, read off the characters: one `@`, not first, no white space, and a dot at least two after it that is not last. */
  predicate IsValidEmail(e: string) {
    && '@' in e
    && var at := IndexOf(e, '@');
    && 0 < at
    && '@' !in e[at + 1..]
    && HasNoSpace(e)
    && at + 2 < |e| - 1
    && '.' in e[at + 2..|e| - 1]
  }

  lemma AllPlainSlice(e: string, i: nat, j: nat)
    requires i <= j <= |e|
    requires HasNoSpace(e) && forall k :: i <= k < j ==> e[k] != '@'
    ensures AllPlain(e[i..j])
  {
    forall k | 0 <= k < j - i ensures PlainChar(e[i..j][k]) {
      assert e[i..j][k] == e[i + k];
    }
  }

  /** The character-level test accepts exactly the addresses the pattern matches. */
  lemma ValidEmailMatchesPattern(e: string)
    ensures IsValidEmail(e) <==> MatchesEmailPattern(e)
  {
    if IsValidEmail(e) {
      ValidEmailHasPattern(e);
    }
    if MatchesEmailPattern(e) {
      PatternIsValidEmail(e);
    }
  }

  lemma ValidEmailHasPattern(e: string)
    requires IsValidEmail(e)
    ensures MatchesEmailPattern(e)
  {
    var at := IndexOf(e, '@');
    var tail := e[at + 2..|e| - 1];
    var d := IndexOf(tail, '.');
    var dot := at + 2 + d;
    assert e[dot] == tail[d];
    var rest := e[at + 1..];
    forall k | at < k < |e| ensures e[k] != '@' {
      assert e[k] == rest[k - at - 1];
    }
    AllPlainSlice(e, 0, at);
    AllPlainSlice(e, at + 1, dot);
    AllPlainSlice(e, dot + 1, |e|);
  }

  lemma PatternIsValidEmail(e: string)
    requires MatchesEmailPattern(e)
    ensures IsValidEmail(e)
  {
    var at: nat, dot: nat :| 0 < at && at + 1 < dot < |e| - 1 && e[at] == '@' && e[dot] == '.'
      && AllPlain(e[..at]) && AllPlain(e[at + 1..dot]) && AllPlain(e[dot + 1..]);
    PatternPieces(e, at, dot);
    assert IndexOf(e, '@') == at;
    assert e[at + 2..|e| - 1][dot - at - 2] == '.';
  }

  /** The three plain pieces and the two separators make every character but the `@` plain. */
  lemma PatternPieces(e: string, at: nat, dot: nat)
    requires 0 < at && at + 1 < dot < |e| - 1 && e[at] == '@' && e[dot] == '.'
    requires AllPlain(e[..at]) && AllPlain(e[at + 1..dot]) && AllPlain(e[dot + 1..])
    ensures HasNoSpace(e) && '@' !in e[..at] && '@' !in e[at + 1..]
  {
    forall k | 0 <= k < at ensures PlainChar(e[k]) {
      assert e[k] == e[..at][k];
    }
    forall k | at < k < dot ensures PlainChar(e[k]) {
      assert e[k] == e[at + 1..dot][k - at - 1];
    }
    forall k | dot < k < |e| ensures PlainChar(e[k]) {
      assert e[k] == e[dot + 1..][k - dot - 1];
    }
    assert forall k :: 0 <= k < |e| && k != at ==> PlainChar(e[k]);
    var rest := e[at + 1..];
    forall k | 0 <= k < |rest| ensures rest[k] != '@' {
      assert rest[k] == e[at + 1 + k];
    }
  }

  // ---------------------------------------------------------------------------
  // One line
  // ---------------------------------------------------------------------------

  datatype User = User(email: string, name: string)

  /** Why a line gives no user; each case is reported with the line's number. */
  datatype LineResult = Accepted(user: User) | MalformedLine | MalformedEmail

  /** A line holding a comma is split on commas only; any other on runs of white space. */
  function Parts(line: string): (parts: seq<string>)
    ensures |parts| >= 1
  {
    if ',' in line then Split(line, ',') else SplitOnSpaceRuns(line)
  }

  /** Lines 43-60 for one line: split, take the trimmed address and the rejoined, trimmed name, and test the address. */
  function ParseLine(line: string): LineResult {
    var parts := Parts(Trim(line));
    if |parts| >= 2 then
      var email := Trim(parts[0]);
      var name := Trim(Join(parts[1..], " "));
      if IsValidEmail(email) then Accepted(User(email, name)) else MalformedEmail
    else MalformedLine
  }

  /**
   * A line of fewer than two parts is malformed whatever it says; otherwise the
   * line is accepted exactly when its trimmed first part passes the address test,
   * and an accepted user's address matches the pattern and its name is trimmed.
   */
  lemma ParseLineCases(line: string)
    ensures var parts := Parts(Trim(line));
      var r := ParseLine(line);
      && (r.MalformedLine? <==> |parts| < 2)
      && (r.MalformedEmail? <==> |parts| >= 2 && !MatchesEmailPattern(Trim(parts[0])))
      && (r.Accepted? ==> r.user.email == Trim(parts[0]) && MatchesEmailPattern(r.user.email) && HasNoSpace(r.user.email))
      && (r.Accepted? ==> r.user.name == [] || (!IsSpace(r.user.name[0]) && !IsSpace(r.user.name[|r.user.name| - 1])))
  {
    var parts := Parts(Trim(line));
    if |parts| >= 2 {
      var email := Trim(parts[0]);
      var name := Trim(Join(parts[1..], " "));
      assert ParseLine(line) == if IsValidEmail(email) then Accepted(User(email, name)) else MalformedEmail;
      ValidEmailMatchesPattern(email);
    } else {
      assert ParseLine(line) == MalformedLine;
    }
  }

  /** An address the pattern matches is non-empty, free of white space, and so its own trim. */
  lemma PatternAddressIsTrimmed(email: string)
    requires MatchesEmailPattern(email)
    ensures IsValidEmail(email) && email != [] && HasNoSpace(email) && Trim(email) == email
  {
    ValidEmailMatchesPattern(email);
    TrimOfTrimmed(email);
  }

  /** A line that is its own trim and splits into a valid address and a trimmed name reads back as that user. */
  lemma ParseOfTwoParts(line: string, email: string, name: string)
    requires Trim(line) == line && Parts(line) == [email, name]
    requires IsValidEmail(email) && Trim(email) == email && Trim(name) == name
    ensures ParseLine(line) == Accepted(User(email, name))
  {
    assert Parts(line)[1..] == [name];
  }

  /** A valid address and a comma-free, trimmed name written as `email,name` read back as that user; the name may be empty. */
  lemma CommaLineRoundTrip(email: string, name: string)
    requires MatchesEmailPattern(email) && ',' !in email && ',' !in name
    requires name == [] || (!IsSpace(name[0]) && !IsSpace(name[|name| - 1]))
    ensures ParseLine(email + "," + name) == Accepted(User(email, name))
  {
    PatternAddressIsTrimmed(email);
    CommaLineParts(email, name);
    TrimOfTrimmed(name);
    ParseOfTwoParts(email + "," + name, email, name);
  }

  /** The line `email,name` is already trimmed and splits at its one comma. */
  lemma CommaLineParts(email: string, name: string)
    requires email != [] && !IsSpace(email[0]) && ',' !in email && ',' !in name
    requires name == [] || !IsSpace(name[|name| - 1])
    ensures Trim(email + "," + name) == email + "," + name
    ensures Parts(email + "," + name) == [email, name]
  {
    var line := email + [','] + name;
    assert line == email + "," + name;
    assert line[|email|] == ',' && line[0] == email[0];
    assert line[|line| - 1] == if name == [] then ',' else name[|name| - 1];
    TrimOfTrimmed(line);
    SplitAfterPiece(email, ',', name);
  }

  /** Splitting `a b` on runs of white space, for words without white space, gives the two words. */
  lemma SplitTwoWords(a: string, b: string)
    requires a != [] && b != [] && HasNoSpace(a) && HasNoSpace(b)
    ensures SplitOnSpaceRuns(a + " " + b) == [a, b]
  {
    var line := a + " " + b;
    assert IsSpace(line[|a|]);
    var i := FirstSpace(line);
    assert line[..i] == a;
    assert line[i + 1..] == b;
    assert SpaceRunEnd(line, i) == i + 1;
    assert !HasSpace(b);
  }

  /** A valid address and a one-word name written as `email name` read back as that user. */
  lemma SpaceLineRoundTrip(email: string, name: string)
    requires MatchesEmailPattern(email) && ',' !in email && ',' !in name
    requires name != [] && HasNoSpace(name)
    ensures ParseLine(email + " " + name) == Accepted(User(email, name))
  {
    PatternAddressIsTrimmed(email);
    var line := email + " " + name;
    assert Trim(line) == line by {
      assert line[0] == email[0] && line[|line| - 1] == name[|name| - 1];
      TrimOfTrimmed(line);
    }
    assert Parts(line) == [email, name] by {
      assert ',' !in line;
      SplitTwoWords(email, name);
    }
    TrimOfTrimmed(name);
    ParseOfTwoParts(line, email, name);
  }

  // ---------------------------------------------------------------------------
  // The parsing loop
  // ---------------------------------------------------------------------------

  /** The users read from the kept lines, in file order. */
  function AcceptedUsers(lines: seq<string>): (users: seq<User>)
    ensures |users| <= |lines|
  {
    if lines == [] then []
    else
      var r := ParseLine(lines[|lines| - 1]);
      AcceptedUsers(lines[..|lines| - 1]) + (if r.Accepted? then [r.user] else [])
  }

  /** The numbers (1-based, among the kept lines) of the lines skipped with a warning. */
  function Warnings(lines: seq<string>): (numbers: seq<nat>)
    ensures forall k :: 0 <= k < |numbers| ==> 1 <= numbers[k] <= |lines|
  {
    if lines == [] then []
    else
      var r := ParseLine(lines[|lines| - 1]);
      var added: seq<nat> := if r.Accepted? then [] else [|lines|];
      Warnings(lines[..|lines| - 1]) + added
  }

  /** Every accepted address matches the pattern. */
  lemma {:induction false} AcceptedUsersValid(lines: seq<string>)
    ensures forall k :: 0 <= k < |AcceptedUsers(lines)| ==> MatchesEmailPattern(AcceptedUsers(lines)[k].email)
  {
    if lines != [] {
      var init, last := lines[..|lines| - 1], lines[|lines| - 1];
      AcceptedUsersValid(init);
      AcceptedLineValid(last);
      var r := ParseLine(last);
      assert AcceptedUsers(lines) == AcceptedUsers(init) + (if r.Accepted? then [r.user] else []);
    }
  }

  lemma AcceptedLineValid(line: string)
    ensures ParseLine(line).Accepted? ==> MatchesEmailPattern(ParseLine(line).user.email)
  {
    ParseLineCases(line);
  }

  /** Every kept line gives either a user or a warning, never both and never neither. */
  lemma {:induction false} UsersAndWarningsPartition(lines: seq<string>)
    ensures |AcceptedUsers(lines)| + |Warnings(lines)| == |lines|
  {
    if lines != [] {
      UsersAndWarningsPartition(lines[..|lines| - 1]);
    }
  }

  /** Warnings come in line order, one per line number at most. */
  lemma {:induction false} WarningsIncrease(lines: seq<string>)
    ensures forall j, k :: 0 <= j < k < |Warnings(lines)| ==> Warnings(lines)[j] < Warnings(lines)[k]
  {
    if lines != [] {
      var init := lines[..|lines| - 1];
      WarningsIncrease(init);
      assert forall k :: 0 <= k < |Warnings(init)| ==> Warnings(init)[k] <= |init|;
    }
  }

  /** One more line adds its user or its warning to those of the lines before it. */
  lemma ParseStep(lines: seq<string>, i: nat)
    requires i < |lines|
    ensures var r := ParseLine(lines[i]);
      && AcceptedUsers(lines[..i + 1]) == AcceptedUsers(lines[..i]) + (if r.Accepted? then [r.user] else [])
      && Warnings(lines[..i + 1]) == Warnings(lines[..i]) + (if r.Accepted? then [] else [i + 1])
  {
    assert lines[..i + 1][..i] == lines[..i];
  }

  /** Lines 41-61: one pass over the kept lines, collecting users and warnings. */
  method ParseUsers(lines: seq<string>) returns (users: seq<User>, warnings: seq<nat>)
    ensures users == AcceptedUsers(lines) && warnings == Warnings(lines)
    ensures |users| + |warnings| == |lines|
  {
    users, warnings := [], [];
    for i := 0 to |lines|
      invariant users == AcceptedUsers(lines[..i]) && warnings == Warnings(lines[..i])
    {
      var r := ParseLine(lines[i]);
      ParseStep(lines, i);
      if r.Accepted? {
        users := users + [r.user];
      } else {
        warnings := warnings + [i + 1];
      }
    }
    assert lines[..|lines|] == lines;
    UsersAndWarningsPartition(lines);
  }

  // ---------------------------------------------------------------------------
  // Creating the users
  // ---------------------------------------------------------------------------

  /** The database's answer for one user: inserted, already present, or an error. */
  datatype Outcome = Inserted | AlreadyExists | Failed(message: string)

  function CountInserted(outcomes: seq<Outcome>): (n: nat)
    ensures n <= |outcomes|
  {
    if outcomes == [] then 0
    else CountInserted(outcomes[..|outcomes| - 1]) + (if outcomes[|outcomes| - 1].Inserted? then 1 else 0)
  }

  /** Lines 76-92: every attempt counts once, as a success exactly when the user was inserted. */
  method CountOutcomes(users: seq<User>, outcomes: seq<Outcome>) returns (successCount: nat, failCount: nat)
    requires |outcomes| == |users|
    ensures successCount == CountInserted(outcomes)
    ensures successCount + failCount == |users|
  {
    successCount, failCount := 0, 0;
    for i := 0 to |users|
      invariant successCount == CountInserted(outcomes[..i])
      invariant successCount + failCount == i
    {
      assert outcomes[..i + 1][..i] == outcomes[..i];
      match outcomes[i]
      case Inserted => successCount := successCount + 1;
      case AlreadyExists => failCount := failCount + 1;
      case Failed(_) => failCount := failCount + 1;
    }
    assert outcomes[..|users|] == outcomes;
  }

  // ---------------------------------------------------------------------------
  // The whole run
  // ---------------------------------------------------------------------------

  /** How the script ends. */
  datatype Exit = Usage | MissingFile | NoValidUsers | SetupFailed | Finished(successCount: nat, failCount: nat)

  /**
   * The script: argument and file checks, parsing, and, only when some user is
   * valid and the database is reachable, the creation loop. The file's existence,
   * its content, the database setup and each creation's answer are parameters.
   */
  method Run(args: seq<string>, fileExists: bool, content: string, setupOk: bool, outcomes: seq<Outcome>)
    returns (exit: Exit)
    requires |outcomes| == |AcceptedUsers(ReadLines(content))|
    ensures exit == Usage <==> args == []
    ensures exit == MissingFile <==> args != [] && !fileExists
    ensures exit == NoValidUsers <==> args != [] && fileExists && AcceptedUsers(ReadLines(content)) == []
    ensures exit == SetupFailed <==> args != [] && fileExists && AcceptedUsers(ReadLines(content)) != [] && !setupOk
    ensures exit.Finished? ==>
      exit.successCount == CountInserted(outcomes) && exit.successCount + exit.failCount == |AcceptedUsers(ReadLines(content))|
  {
    if args == [] {
      return Usage;
    }
    if !fileExists {
      return MissingFile;
    }
    var users, _ := ParseUsers(ReadLines(content));
    if users == [] {
      return NoValidUsers;
    }
    if !setupOk {
      return SetupFailed;
    }
    var successCount, failCount := CountOutcomes(users, outcomes);
    exit := Finished(successCount, failCount);
  }
}
