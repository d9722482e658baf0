/** The four pattern checks behind organization names and usernames, and the grammar they stand for. */
module NameGrammar {
  import opened Common

  // ----- The patterns, and what matching them means

  datatype CharClass = Alnum | Separator | Allowed

  datatype Pattern =
    | StartAnchor                                 // ^
    | EndAnchor                                   // $, which also matches before a final newline
    | AtLeast(times: nat, class_: CharClass)      // [...]{n,}
    | One(class_: CharClass)                      // [...]
    | Then(first: Pattern, second: Pattern)

  const ALLOWED_CHARS := Then(StartAnchor, Then(AtLeast(1, Allowed), EndAnchor))
  const START := Then(StartAnchor, One(Alnum))
  const END := Then(One(Alnum), EndAnchor)
  const CONSECUTIVE_SEPARATORS := AtLeast(2, Separator)

  predicate IsAlnum(c: char)
  {
    'A' <= c <= 'Z' || 'a' <= c <= 'z' || '0' <= c <= '9'
  }

  /** The ASCII codes of digits, capitals and small letters, and no others. */
  lemma AlnumAre(c: char)
    ensures IsAlnum(c) <==> 48 <= c as int <= 57 || 65 <= c as int <= 90 || 97 <= c as int <= 122
  {
  }

  predicate InClass(separators: string, class_: CharClass, c: char)
  {
    match class_
    case Alnum => IsAlnum(c)
    case Separator => c in separators
    case Allowed => IsAlnum(c) || c in separators
  }

  /** The pattern can match the part of the text from i up to j. */
  ghost predicate Matches(separators: string, p: Pattern, s: string, i: nat, j: nat)
    requires i <= j <= |s|
  {
    match p
    case StartAnchor => i == j == 0
    case EndAnchor => i == j && (i == |s| || (i == |s| - 1 && s[i] == '\n'))
    case One(class_) => j == i + 1 && InClass(separators, class_, s[i])
    case AtLeast(times, class_) => j - i >= times && forall k :: i <= k < j ==> InClass(separators, class_, s[k])
    case Then(first, second) =>
      exists m :: i <= m <= j && Matches(separators, first, s, i, m) && Matches(separators, second, s, m, j)
  }

  ghost predicate FullMatch(separators: string, p: Pattern, s: string)
  {
    Matches(separators, p, s, 0, |s|)
  }

  ghost predicate MatchFromStart(separators: string, p: Pattern, s: string)
  {
    exists j :: 0 <= j <= |s| && Matches(separators, p, s, 0, j)
  }

  ghost predicate Search(separators: string, p: Pattern, s: string)
  {
    exists i, j :: 0 <= i <= j <= |s| && Matches(separators, p, s, i, j)
  }

  /** All four checks of the value object. */
  ghost predicate PassesChecks(separators: string, s: string)
  {
    && FullMatch(separators, ALLOWED_CHARS, s)
    && MatchFromStart(separators, START, s)
    && Search(separators, END, s)
    && !Search(separators, CONSECUTIVE_SEPARATORS, s)
  }

  // ----- The grammar: words joined by single separators

  datatype Parts = Word(word: string) | Joined(word: string, separator: char, rest: Parts)

  predicate IsWord(w: string)
  {
    w != "" && forall i :: 0 <= i < |w| ==> IsAlnum(w[i])
  }

  predicate WellFormed(separators: string, parts: Parts)
  {
    match parts
    case Word(w) => IsWord(w)
    case Joined(w, separator, rest) => IsWord(w) && separator in separators && WellFormed(separators, rest)
  }

  function Join(parts: Parts): string
  {
    match parts
    case Word(w) => w
    case Joined(w, separator, rest) => w + [separator] + Join(rest)
  }

  predicate NoAlnum(separators: string)
  {
    forall c :: c in separators ==> !IsAlnum(c) && c != '\n'
  }

  /** How many characters at the start are alphanumeric. */
  function WordLength(s: string): (n: nat)
    ensures n <= |s| && (forall i :: 0 <= i < n ==> IsAlnum(s[i])) && (n < |s| ==> !IsAlnum(s[n]))
  {
    if s == "" || !IsAlnum(s[0]) then 0 else 1 + WordLength(s[1..])
  }

  function Parse(separators: string, s: string): Option<Parts>
    decreases |s|
  {
    var n := WordLength(s);
    if n == 0 then None
    else if n == |s| then Some(Word(s))
    else if s[n] !in separators then None
    else
      match Parse(separators, s[n + 1..])
      case None => None
      case Some(rest) => Some(Joined(s[..n], s[n], rest))
  }

  /** Joining what was parsed gives the text back ... */
  lemma {:induction false} JoinParse(separators: string, s: string)
    ensures var parts := Parse(separators, s);
            parts.Some? ==> WellFormed(separators, parts.value) && Join(parts.value) == s
    decreases |s|
  {
    var n := WordLength(s);
    if 0 < n < |s| {
      JoinParse(separators, s[n + 1..]);
      assert s == s[..n] + [s[n]] + s[n + 1..];
    }
  }

  lemma FirstWord(w: string, tail: string)
    requires IsWord(w) && (tail != "" ==> !IsAlnum(tail[0]))
    ensures WordLength(w + tail) == |w| && (w + tail)[..|w|] == w
  {
    var s := w + tail;
    assert forall i :: 0 <= i < |w| ==> s[i] == w[i];
    assert tail != "" ==> s[|w|] == tail[0];
  }

  /** ... and parsing what was joined gives the parts back. */
  lemma {:induction false} ParseJoin(separators: string, parts: Parts)
    requires NoAlnum(separators) && WellFormed(separators, parts)
    ensures Parse(separators, Join(parts)) == Some(parts)
  {
    match parts
    case Word(w) => FirstWord(w, "");
    case Joined(w, separator, rest) =>
      var tail := [separator] + Join(rest);
      FirstWord(w, tail);
      assert Join(parts) == w + tail && (w + tail)[|w| + 1..] == Join(rest);
      ParseJoin(separators, rest);
  }

  /** The split of a text into words and separators is unique. */
  lemma SplitIsUnique(separators: string, a: Parts, b: Parts)
    requires NoAlnum(separators) && WellFormed(separators, a) && WellFormed(separators, b) && Join(a) == Join(b)
    ensures a == b
  {
    ParseJoin(separators, a);
    ParseJoin(separators, b);
  }

  // ----- The checks accept exactly the grammar

  /** What the four checks say about single characters. */
  predicate IsClean(separators: string, s: string)
  {
    && s != ""
    && (forall i :: 0 <= i < |s| ==> IsAlnum(s[i]) || s[i] in separators)
    && IsAlnum(s[0]) && IsAlnum(s[|s| - 1])
    && (forall i :: 0 <= i < |s| - 1 ==> IsAlnum(s[i]) || IsAlnum(s[i + 1]))
  }

  lemma Middle(separators: string, first: Pattern, second: Pattern, s: string, i: nat, j: nat) returns (m: nat)
    requires i <= j <= |s| && Matches(separators, Then(first, second), s, i, j)
    ensures i <= m <= j && Matches(separators, first, s, i, m) && Matches(separators, second, s, m, j)
  {
    m :| i <= m <= j && Matches(separators, first, s, i, m) && Matches(separators, second, s, m, j);
  }

  lemma AllowedIff(separators: string, s: string)
    ensures FullMatch(separators, ALLOWED_CHARS, s) <==>
              s != "" && forall i :: 0 <= i < |s| ==> IsAlnum(s[i]) || s[i] in separators
  {
    var inner := Then(AtLeast(1, Allowed), EndAnchor);
    if FullMatch(separators, ALLOWED_CHARS, s) {
      var m := Middle(separators, StartAnchor, inner, s, 0, |s|);
      var k := Middle(separators, AtLeast(1, Allowed), EndAnchor, s, m, |s|);
      assert forall i :: 0 <= i < |s| ==> InClass(separators, Allowed, s[i]);
    }
    if s != "" && forall i :: 0 <= i < |s| ==> IsAlnum(s[i]) || s[i] in separators {
      assert Matches(separators, AtLeast(1, Allowed), s, 0, |s|) && Matches(separators, EndAnchor, s, |s|, |s|);
      assert Matches(separators, inner, s, 0, |s|) && Matches(separators, StartAnchor, s, 0, 0);
    }
  }

  lemma StartIff(separators: string, s: string)
    ensures MatchFromStart(separators, START, s) <==> s != "" && IsAlnum(s[0])
  {
    if MatchFromStart(separators, START, s) {
      var j: nat :| 0 <= j <= |s| && Matches(separators, START, s, 0, j);
      var m := Middle(separators, StartAnchor, One(Alnum), s, 0, j);
    }
    if s != "" && IsAlnum(s[0]) {
      assert Matches(separators, StartAnchor, s, 0, 0) && Matches(separators, One(Alnum), s, 0, 1);
      assert Matches(separators, START, s, 0, 1);
    }
  }

  lemma EndsAt(separators: string, s: string, i: nat)
    requires i < |s| && IsAlnum(s[i]) && (i + 1 == |s| || (i + 2 == |s| && s[i + 1] == '\n'))
    ensures Search(separators, END, s)
  {
    assert Matches(separators, One(Alnum), s, i, i + 1) && Matches(separators, EndAnchor, s, i + 1, i + 1);
    assert Matches(separators, END, s, i, i + 1);
  }

  /** On its own the end check lets one final newline pass. */
  lemma EndIff(separators: string, s: string)
    ensures Search(separators, END, s) <==>
              || (s != "" && IsAlnum(s[|s| - 1]))
              || (|s| >= 2 && s[|s| - 1] == '\n' && IsAlnum(s[|s| - 2]))
  {
    if Search(separators, END, s) {
      var i: nat, j: nat :| 0 <= i <= j <= |s| && Matches(separators, END, s, i, j);
      var m := Middle(separators, One(Alnum), EndAnchor, s, i, j);
    }
    if s != "" && IsAlnum(s[|s| - 1]) { EndsAt(separators, s, |s| - 1); }
    if |s| >= 2 && s[|s| - 1] == '\n' && IsAlnum(s[|s| - 2]) { EndsAt(separators, s, |s| - 2); }
  }

  lemma ConsecutiveIff(separators: string, s: string)
    ensures Search(separators, CONSECUTIVE_SEPARATORS, s) <==>
              exists i :: 0 <= i < |s| - 1 && s[i] in separators && s[i + 1] in separators
  {
    if Search(separators, CONSECUTIVE_SEPARATORS, s) {
      var i: nat, j: nat :| 0 <= i <= j <= |s| && Matches(separators, CONSECUTIVE_SEPARATORS, s, i, j);
      assert InClass(separators, Separator, s[i]) && InClass(separators, Separator, s[i + 1]);
    }
    if i :| 0 <= i < |s| - 1 && s[i] in separators && s[i + 1] in separators {
      assert Matches(separators, CONSECUTIVE_SEPARATORS, s, i, i + 2);
    }
  }

  lemma ChecksMeanClean(separators: string, s: string)
    requires NoAlnum(separators)
    ensures PassesChecks(separators, s) <==> IsClean(separators, s)
  {
    AllowedIff(separators, s);
    StartIff(separators, s);
    EndIff(separators, s);
    ConsecutiveIff(separators, s);
  }

  lemma {:induction false} CleanIffParsed(separators: string, s: string)
    requires NoAlnum(separators)
    ensures IsClean(separators, s) <==> Parse(separators, s).Some?
    decreases |s|
  {
    var n := WordLength(s);
    if 0 < n < |s| {
      var rest := s[n + 1..];
      CleanIffParsed(separators, rest);
      if IsClean(separators, s) {
        assert n < |s| - 1;
        forall i | 0 <= i < |rest| ensures rest[i] == s[n + 1 + i] {}
        assert IsClean(separators, rest);
      }
      if IsClean(separators, rest) && s[n] in separators {
        forall i | 0 <= i < |s|
          ensures IsAlnum(s[i]) || s[i] in separators
          ensures i < |s| - 1 ==> IsAlnum(s[i]) || IsAlnum(s[i + 1])
        {
          if i > n { assert s[i] == rest[i - n - 1]; }
          if n <= i < |s| - 1 { assert s[i + 1] == rest[i - n]; }
        }
        assert s[|s| - 1] == rest[|rest| - 1];
      }
    }
  }

  /**
   For a text of any length: the four checks together accept it exactly when it consists of
   non-empty alphanumeric words joined by single separators.
   */
  lemma AcceptedIffWords(separators: string, s: string)
    requires NoAlnum(separators)
    ensures PassesChecks(separators, s) <==> exists parts :: WellFormed(separators, parts) && Join(parts) == s
  {
    ChecksMeanClean(separators, s);
    CleanIffParsed(separators, s);
    JoinParse(separators, s);
    if parts :| WellFormed(separators, parts) && Join(parts) == s {
      ParseJoin(separators, parts);
    }
  }

  // ----- The two value objects

  datatype Rules = Rules(separators: string, minLength: nat, maxLength: nat, strips: bool)

  const ORGANIZATION_NAME := Rules(" _-", 1, 100, true)
  const USERNAME := Rules("._-", 5, 20, false)

  datatype NameError = BadLength | BadCharacter | BadStart | BadEnd | ConsecutiveSeparators

  /** The characters that stripping removes. */
  predicate IsSpace(c: char)
  {
    || '\t' <= c <= '\r' || '\U{001C}' <= c <= ' ' || c == '\U{0085}' || c == '\U{00A0}' || c == '\U{1680}'
    || '\U{2000}' <= c <= '\U{200A}' || c == '\U{2028}' || c == '\U{2029}' || c == '\U{202F}' || c == '\U{205F}'
    || c == '\U{3000}'
  }

  function LeadingSpaces(s: string): (n: nat)
    ensures n <= |s| && (forall i :: 0 <= i < n ==> IsSpace(s[i])) && (n < |s| ==> !IsSpace(s[n]))
  {
    if s == "" || !IsSpace(s[0]) then 0 else 1 + LeadingSpaces(s[1..])
  }

  /** Where the text ends once the spaces after it are gone. */
  function TrimmedEnd(s: string): (n: nat)
    ensures n <= |s| && (forall i :: n <= i < |s| ==> IsSpace(s[i])) && (n > 0 ==> !IsSpace(s[n - 1]))
  {
    if s == "" || !IsSpace(s[|s| - 1]) then |s| else TrimmedEnd(s[..|s| - 1])
  }

  function Strip(s: string): string
  {
    var n := LeadingSpaces(s);
    s[n..n + TrimmedEnd(s[n..])]
  }

  lemma EndOfText(t: string, n: nat)
    requires n <= |t| && (forall k :: n <= k < |t| ==> IsSpace(t[k])) && (n > 0 ==> !IsSpace(t[n - 1]))
    ensures TrimmedEnd(t) == n
  {
    var m := TrimmedEnd(t);
    assert m > 0 ==> !IsSpace(t[m - 1]);
  }

  /** Stripping removes exactly the spaces at both ends: whatever fits that description is what it returns. */
  lemma StripExact(s: string, i: nat, j: nat)
    requires i <= j <= |s| && forall k :: 0 <= k < i || j <= k < |s| ==> IsSpace(s[k])
    requires i == j ==> i == |s|
    requires i < j ==> !IsSpace(s[i]) && !IsSpace(s[j - 1])
    ensures Strip(s) == s[i..j]
  {
    assert LeadingSpaces(s) == i;
    var t := s[i..];
    assert TrimmedEnd(t) == j - i by { EndOfText(t, j - i); }
    assert t[..j - i] == s[i..j];
  }

  /** Padding does not matter: spaces around a text are gone before it is looked at. */
  lemma PaddingIsIgnored(before: string, s: string, after: string)
    requires forall k :: 0 <= k < |before| ==> before[k] in " \t\n\r"
    requires forall k :: 0 <= k < |after| ==> after[k] in " \t\n\r"
    requires s != "" && !IsSpace(s[0]) && !IsSpace(s[|s| - 1])
    ensures Strip(before + s + after) == s
  {
    var t, i, j := before + s + after, |before|, |before| + |s|;
    assert forall k :: 0 <= k < i ==> t[k] == before[k];
    assert forall k :: j <= k < |t| ==> t[k] == after[k - j];
    StripExact(t, i, j);
    assert t[i..j] == s;
  }

  function Normalize(rules: Rules, raw: string): string
  {
    if rules.strips then Strip(raw) else raw
  }

  /** The checks in their order; the first that fails is the error. */
  ghost function Make(rules: Rules, raw: string): Result<string, NameError>
  {
    var s := Normalize(rules, raw);
    if |s| < rules.minLength || |s| > rules.maxLength then Err(BadLength)
    else if !FullMatch(rules.separators, ALLOWED_CHARS, s) then Err(BadCharacter)
    else if !MatchFromStart(rules.separators, START, s) then Err(BadStart)
    else if !Search(rules.separators, END, s) then Err(BadEnd)
    else if Search(rules.separators, CONSECUTIVE_SEPARATORS, s) then Err(ConsecutiveSeparators)
    else Ok(s)
  }

  /** Which complaint is made, in plain terms, when several apply: the first of these. */
  lemma Complaints(rules: Rules, raw: string)
    requires NoAlnum(rules.separators) && Make(rules, raw).Err?
    ensures var s := Normalize(rules, raw);
            Make(rules, raw).error == (
              if |s| < rules.minLength || |s| > rules.maxLength then BadLength
              else if s == "" || exists i :: 0 <= i < |s| && !IsAlnum(s[i]) && s[i] !in rules.separators then
                BadCharacter
              else if s[0] in rules.separators then BadStart
              else if s[|s| - 1] in rules.separators then BadEnd
              else ConsecutiveSeparators)
  {
    var s := Normalize(rules, raw);
    AllowedIff(rules.separators, s);
    StartIff(rules.separators, s);
    EndIff(rules.separators, s);
  }

  /** A value exists exactly for texts of the right length that are words joined by single separators. */
  lemma MadeIff(rules: Rules, raw: string, value: string)
    requires NoAlnum(rules.separators)
    ensures Make(rules, raw) == Ok(value) <==>
              && value == Normalize(rules, raw) && rules.minLength <= |value| <= rules.maxLength
              && exists parts :: WellFormed(rules.separators, parts) && Join(parts) == value
  {
    AcceptedIffWords(rules.separators, Normalize(rules, raw));
  }

  /** A value made once is a fixed point: making it again gives the same value. */
  lemma MadeOnce(rules: Rules, raw: string)
    requires NoAlnum(rules.separators) && Make(rules, raw).Ok?
    ensures Make(rules, Make(rules, raw).value) == Make(rules, raw)
  {
    var value := Make(rules, raw).value;
    ChecksMeanClean(rules.separators, value);
    assert !IsSpace(value[0]) && !IsSpace(value[|value| - 1]);
    assert Strip(value) == value;
  }

  /** Organization names: stripped, 1 to 100 characters, words joined by single spaces, underscores or hyphens. */
  lemma OrganizationNamesAre(raw: string, value: string)
    ensures Make(ORGANIZATION_NAME, raw) == Ok(value) <==>
              && value == Strip(raw) && 1 <= |value| <= 100
              && exists parts :: WellFormed(" _-", parts) && Join(parts) == value
  {
    MadeIff(ORGANIZATION_NAME, raw, value);
  }

  /** Usernames: as given, 5 to 20 characters, words joined by single dots, underscores or hyphens. */
  lemma UsernamesAre(raw: string, value: string)
    ensures Make(USERNAME, raw) == Ok(value) <==>
              && value == raw && 5 <= |value| <= 20
              && exists parts :: WellFormed("._-", parts) && Join(parts) == value
  {
    MadeIff(USERNAME, raw, value);
  }
}
