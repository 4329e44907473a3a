/**
 * utils/idGenerator.js: an identifier made of up to three upper-cased
 * initials of a name and the last five digits of the millisecond clock.
 */
module IdGenerator {
  import opened Wrappers
  import opened Text
  import opened Clock

  /** `s.split(" ")`: the pieces between single spaces, empty pieces included. */
  function SplitOnSpace(s: string): (parts: seq<string>)
    ensures |parts| >= 1
    ensures forall k :: 0 <= k < |parts| ==> ' ' !in parts[k]
  {
    if s == [] then [""]
    else if s[0] == ' ' then [""] + SplitOnSpace(s[1..])
    else
      var rest := SplitOnSpace(s[1..]);
      [[s[0]] + rest[0]] + rest[1..]
  }

  /** `parts.join(" ")` */
  function JoinWithSpace(parts: seq<string>): string
    requires |parts| >= 1
  {
    if |parts| == 1 then parts[0] else parts[0] + " " + JoinWithSpace(parts[1..])
  }

  /** Splitting on spaces and joining with spaces gives the string back. */
  lemma {:induction false} JoinSplitOnSpace(s: string)
    ensures JoinWithSpace(SplitOnSpace(s)) == s
  {
    if s == [] {
    } else if s[0] == ' ' {
      JoinSplitOnSpace(s[1..]);
      assert SplitOnSpace(s)[1..] == SplitOnSpace(s[1..]);
    } else {
      var rest := SplitOnSpace(s[1..]);
      JoinSplitOnSpace(s[1..]);
      var parts := SplitOnSpace(s);
      if |rest| == 1 {
      } else {
        assert parts[1..] == rest[1..];
        assert JoinWithSpace(rest) == rest[0] + " " + JoinWithSpace(rest[1..]);
      }
    }
  }

  /** `parts.map(n => n[0]).join("")`: an empty piece gives `undefined`, which joins as nothing. */
  function FirstChars(parts: seq<string>): string {
    if parts == [] then []
    else (if parts[0] == [] then [] else [parts[0][0]]) + FirstChars(parts[1..])
  }

  /**
   * Reference definition of the initials: every non-space character that
   * starts the string or follows a space, in order.
   */
  function WordStarts(s: string, atStart: bool): (r: string)
    ensures |r| <= |s|
    ensures forall c :: c in r ==> c in s && c != ' '
  {
    if s == [] then []
    else if s[0] == ' ' then WordStarts(s[1..], true)
    else (if atStart then [s[0]] else []) + WordStarts(s[1..], false)
  }

  lemma FirstCharsAppend(a: seq<string>, b: seq<string>)
    ensures FirstChars(a + b) == FirstChars(a) + FirstChars(b)
  {
    if a == [] {
      assert a + b == b;
    } else {
      assert (a + b)[0] == a[0];
      assert (a + b)[1..] == a[1..] + b;
      FirstCharsAppend(a[1..], b);
    }
  }

  /** The first characters of the space-separated pieces are exactly the word starts. */
  lemma {:induction false} FirstCharsOfPieces(s: string)
    ensures FirstChars(SplitOnSpace(s)) == WordStarts(s, true)
    ensures FirstChars(SplitOnSpace(s)[1..]) == WordStarts(s, false)
  {
    if s == [] {
    } else if s[0] == ' ' {
      FirstCharsOfPieces(s[1..]);
      FirstCharsAppend([""], SplitOnSpace(s[1..]));
      assert SplitOnSpace(s)[1..] == SplitOnSpace(s[1..]);
    } else {
      var rest := SplitOnSpace(s[1..]);
      FirstCharsOfPieces(s[1..]);
      var parts := SplitOnSpace(s);
      assert parts == [[s[0]] + rest[0]] + rest[1..];
      FirstCharsAppend([[s[0]] + rest[0]], rest[1..]);
      assert parts[1..] == rest[1..];
    }
  }

  /** `name.split(" ").map(n => n[0]).join("").toUpperCase().slice(0, 3)` */
  function Initials(name: string): (r: string)
    ensures |r| <= 3
    ensures forall i :: 0 <= i < |r| ==> !IsLowerLetter(r[i])
  {
    Take(Upper(FirstChars(SplitOnSpace(name))), 3)
  }

  /** The initials are the first three word starts, upper-cased. */
  lemma InitialsAreWordStarts(name: string)
    ensures Initials(name) == Take(Upper(WordStarts(name, true)), 3)
  {
    FirstCharsOfPieces(name);
  }

  /** `generateCandidateId(name = "")`: initials, an underscore, the clock's last five digits. */
  function GenerateCandidateId(name: Option<string>, now: Instant): (id: string)
    ensures 1 <= |id| <= 9
    ensures '_' in id
    ensures forall i :: 0 <= i < |id| ==> !IsLowerLetter(id[i])
  {
    var initials, digits := Initials(name.GetOr("")), TakeLast(Dec(now.epochMillis), 5);
    StampHasNoLower(initials, Dec(now.epochMillis), digits);
    initials + "_" + digits
  }

  /** Upper-case initials joined by "_" to a tail of a decimal rendering contain no lower-case letter. */
  lemma StampHasNoLower(initials: string, dec: string, digits: string)
    requires forall i :: 0 <= i < |initials| ==> !IsLowerLetter(initials[i])
    requires AllDigits(dec) && |digits| <= |dec| && digits == dec[|dec| - |digits|..]
    ensures var id := initials + "_" + digits;
      id[|initials|] == '_' && forall i :: 0 <= i < |id| ==> !IsLowerLetter(id[i])
  {
    var id := initials + "_" + digits;
    forall i | 0 <= i < |id| ensures !IsLowerLetter(id[i]) {
      if i > |initials| {
        assert id[i] == dec[|dec| - |digits| + i - |initials| - 1];
      }
    }
  }

  /** The identifier splits back into its initials and its clock suffix. */
  lemma GeneratedIdParts(name: Option<string>, now: Instant)
    ensures var id := GenerateCandidateId(name, now);
      var k := |Initials(name.GetOr(""))|;
      k <= 3 && id[..k] == Initials(name.GetOr("")) && id[k] == '_'
      && id[k + 1..] == TakeLast(Dec(now.epochMillis), 5)
      && AllDigits(id[k + 1..]) && |id[k + 1..]| <= 5
  {
  }

  /**
   * A missing or empty name gives "_" followed by exactly five digits, for any
   * clock of at least 10^4 milliseconds past the epoch.
   */
  lemma EmptyNameIdIsUnderscoreAndFiveDigits(name: Option<string>, now: Instant)
    requires name == None || name == Some("")
    requires now.epochMillis >= 10000
    ensures var id := GenerateCandidateId(name, now);
      |id| == 6 && id[0] == '_' && AllDigits(id[1..])
  {
    DecHasFiveDigits(now.epochMillis);
    assert SplitOnSpace("") == [""];
  }
}
