/** `String.isValidEmail` (bartek/Models.swift): a full-string match of
    `[A-Z0-9a-z._%+-]+@[A-Za-z0-9.-]+\.[A-Za-z]{2,64}`, written as a
    hand-written matcher and proved equal to the pattern read declaratively. */
module Email {
  import opened Records
  import opened Text

  predicate IsAsciiLetter(c: char) {
    ('A' <= c <= 'Z') || ('a' <= c <= 'z')
  }

  predicate IsDigit(c: char) {
    '0' <= c <= '9'
  }

  /** `[A-Z0-9a-z._%+-]` */
  predicate IsLocalChar(c: char) {
    IsAsciiLetter(c) || IsDigit(c) || c == '.' || c == '_' || c == '%' || c == '+' || c == '-'
  }

  /** `[A-Za-z0-9.-]` */
  predicate IsDomainChar(c: char) {
    IsAsciiLetter(c) || IsDigit(c) || c == '.' || c == '-'
  }

  predicate AllLocal(s: string) {
    forall i :: 0 <= i < |s| ==> IsLocalChar(s[i])
  }

  predicate AllDomain(s: string) {
    forall i :: 0 <= i < |s| ==> IsDomainChar(s[i])
  }

  predicate AllLetters(s: string) {
    forall i :: 0 <= i < |s| ==> IsAsciiLetter(s[i])
  }

  /** `s` splits as L "@" D "." T at positions `at` and `dot`: L non-empty over
      the local class, D non-empty over the domain class, T of 2 to 64 letters. */
  ghost predicate SplitsAt(s: string, at: int, dot: int) {
    && 1 <= at && at + 1 < dot && dot < |s|
    && s[at] == '@' && s[dot] == '.'
    && AllLocal(s[..at])
    && AllDomain(s[at + 1..dot])
    && 2 <= |s| - (dot + 1) <= 64
    && AllLetters(s[dot + 1..])
  }

  /** The pattern, read declaratively: some split exists. */
  ghost predicate MatchesPattern(s: string) {
    exists at, dot :: SplitsAt(s, at, dot)
  }

  /** Position of the first `c` in `s`. */
  function IndexOf(s: string, c: char): (r: Option<nat>)
    ensures r.None? ==> c !in s
    ensures r.Some? ==> r.value < |s| && s[r.value] == c && c !in s[..r.value]
  {
    if s == [] then None
    else if s[0] == c then Some(0)
    else
      match IndexOf(s[1..], c)
      case None => None
      case Some(k) =>
        assert s[..k + 1] == [s[0]] + s[1..][..k];
        Some(k + 1)
  }

  /** Position of the last `c` in `s`. */
  function LastIndexOf(s: string, c: char): (r: Option<nat>)
    ensures r.None? ==> c !in s
    ensures r.Some? ==> r.value < |s| && s[r.value] == c && c !in s[r.value + 1..]
  {
    if s == [] then None
    else if s[|s| - 1] == c then Some(|s| - 1)
    else
      match LastIndexOf(s[..|s| - 1], c)
      case None =>
        assert s == s[..|s| - 1] + [s[|s| - 1]];
        None
      case Some(k) =>
        assert s[k + 1..] == s[..|s| - 1][k + 1..] + [s[|s| - 1]];
        Some(k)
  }

  /** The matcher. No character class admits '@', so the '@' of a match is the
      first one; no letter is '.', so the separating '.' is the last one. */
  function IsValidEmail(s: string): (b: bool)
    ensures b ==> |s| >= 6 && IsLocalChar(s[0]) && IsAsciiLetter(s[|s| - 1])
  {
    match IndexOf(s, '@')
    case None => false
    case Some(at) =>
      var local := s[..at];
      |local| >= 1 && AllLocal(local) && IsValidDomain(s[at + 1..])
  }

  /** The part after the '@', `[A-Za-z0-9.-]+\.[A-Za-z]{2,64}`, split at its
      last '.'. */
  predicate IsValidDomain(rest: string)
    ensures IsValidDomain(rest) ==> |rest| >= 4 && IsAsciiLetter(rest[|rest| - 1])
  {
    match LastIndexOf(rest, '.')
    case None => false
    case Some(k) =>
      var domain := rest[..k];
      var tld := rest[k + 1..];
      |domain| >= 1 && AllDomain(domain) && 2 <= |tld| <= 64 && AllLetters(tld)
  }

  /** `rest` splits as D "." T at position `k`. */
  ghost predicate DomainSplitsAt(rest: string, k: int) {
    && 1 <= k < |rest| && rest[k] == '.'
    && AllDomain(rest[..k])
    && 2 <= |rest| - (k + 1) <= 64
    && AllLetters(rest[k + 1..])
  }

  lemma IndexOfIsFirst(s: string, c: char, i: nat)
    requires i < |s| && s[i] == c && c !in s[..i]
    ensures IndexOf(s, c) == Some(i)
  {
    assert s[i] in s;
    assert forall j :: 0 <= j < i ==> s[..i][j] == s[j];
  }

  lemma LastIndexOfIsLast(s: string, c: char, i: nat)
    requires i < |s| && s[i] == c && c !in s[i + 1..]
    ensures LastIndexOf(s, c) == Some(i)
  {
    assert s[i] in s;
    assert forall j :: i < j < |s| ==> s[i + 1..][j - i - 1] == s[j];
  }

  lemma LocalHasNoAt(l: string)
    requires AllLocal(l)
    ensures '@' !in l
  {
    forall i | 0 <= i < |l| ensures l[i] != '@' { assert IsLocalChar(l[i]); }
  }

  lemma LettersHaveNoDot(t: string)
    requires AllLetters(t)
    ensures '.' !in t && '@' !in t
  {
    forall i | 0 <= i < |t| ensures t[i] != '.' && t[i] != '@' { assert IsAsciiLetter(t[i]); }
  }

  lemma DomainHasNoAt(d: string)
    requires AllDomain(d)
    ensures '@' !in d
  {
    forall i | 0 <= i < |d| ensures d[i] != '@' { assert IsDomainChar(d[i]); }
  }

  /** A split of the part after the '@' gives a split of the whole address. */
  lemma DomainSplitGivesSplit(s: string, at: nat, k: nat)
    requires at < |s| && 1 <= at && s[at] == '@' && AllLocal(s[..at])
    requires DomainSplitsAt(s[at + 1..], k)
    ensures SplitsAt(s, at, at + 1 + k)
  {
    var rest, dot := s[at + 1..], at + 1 + k;
    assert rest[..k] == s[at + 1..dot];
    assert rest[k + 1..] == s[dot + 1..];
  }

  /** And a split of the whole address splits the part after its '@'. */
  lemma SplitGivesDomainSplit(s: string, at: int, dot: int)
    requires SplitsAt(s, at, dot)
    ensures DomainSplitsAt(s[at + 1..], dot - at - 1)
  {
    var rest, k := s[at + 1..], dot - at - 1;
    assert rest[..k] == s[at + 1..dot];
    assert rest[k + 1..] == s[dot + 1..];
  }

  lemma ValidDomainSplits(rest: string) returns (k: nat)
    requires IsValidDomain(rest)
    ensures DomainSplitsAt(rest, k)
  {
    k := LastIndexOf(rest, '.').value;
  }

  lemma DomainSplitIsValid(rest: string, k: int)
    requires DomainSplitsAt(rest, k)
    ensures IsValidDomain(rest)
  {
    LettersHaveNoDot(rest[k + 1..]);
    LastIndexOfIsLast(rest, '.', k);
  }

  lemma ValidEmailSplits(s: string) returns (at: nat, dot: nat)
    requires IsValidEmail(s)
    ensures SplitsAt(s, at, dot)
  {
    at := ValidEmailParts(s);
    dot := SplitAfterAt(s, at);
  }

  /** The local part before the first '@' and a valid domain after it make a
      split. */
  lemma SplitAfterAt(s: string, at: nat) returns (dot: nat)
    requires at < |s| && s[at] == '@' && 1 <= at && AllLocal(s[..at]) && IsValidDomain(s[at + 1..])
    ensures SplitsAt(s, at, dot)
  {
    var k := ValidDomainSplits(s[at + 1..]);
    dot := at + 1 + k;
    DomainSplitGivesSplit(s, at, k);
  }

  lemma ValidEmailParts(s: string) returns (at: nat)
    requires IsValidEmail(s)
    ensures at < |s| && s[at] == '@' && 1 <= at && AllLocal(s[..at]) && IsValidDomain(s[at + 1..])
  {
    at := IndexOf(s, '@').value;
  }

  lemma SplitIsValidEmail(s: string, at: int, dot: int)
    requires SplitsAt(s, at, dot)
    ensures IsValidEmail(s)
  {
    assert IndexOf(s, '@') == Some(at) by {
      LocalHasNoAt(s[..at]);
      IndexOfIsFirst(s, '@', at);
    }
    assert IsValidDomain(s[at + 1..]) by {
      SplitGivesDomainSplit(s, at, dot);
      DomainSplitIsValid(s[at + 1..], dot - at - 1);
    }
  }

  /** The matcher accepts exactly the strings the pattern matches. */
  lemma IsValidEmailMatchesPattern(s: string)
    ensures IsValidEmail(s) <==> MatchesPattern(s)
  {
    if IsValidEmail(s) {
      var at, dot := ValidEmailSplits(s);
    }
    if MatchesPattern(s) {
      var at, dot :| SplitsAt(s, at, dot);
      SplitIsValidEmail(s, at, dot);
    }
  }

  /** A match holds exactly one '@'. */
  lemma ValidEmailHasOneAt(s: string)
    requires IsValidEmail(s)
    ensures multiset(s)['@'] == 1
  {
    var at, dot := ValidEmailSplits(s);
    var local, domain, tld := s[..at], s[at + 1..dot], s[dot + 1..];
    assert s == local + [s[at]] + domain + [s[dot]] + tld;
    LocalHasNoAt(local);
    DomainHasNoAt(domain);
    LettersHaveNoDot(tld);
    assert multiset(s) == multiset(local) + multiset([s[at]]) + multiset(domain) + multiset([s[dot]]) + multiset(tld);
  }

  /** In a match, the segment after the last '.' has 2 to 64 letters. */
  lemma ValidEmailFinalSegment(s: string)
    requires IsValidEmail(s)
    ensures LastIndexOf(s, '.').Some?
    ensures var k := LastIndexOf(s, '.').value;
      2 <= |s| - (k + 1) <= 64 && AllLetters(s[k + 1..])
  {
    var at, dot := ValidEmailSplits(s);
    LettersHaveNoDot(s[dot + 1..]);
    LastIndexOfIsLast(s, '.', dot);
  }

  /** A final segment of one letter, or of 65, is rejected. */
  lemma FinalSegmentOutOfRangeRejected(s: string, k: nat)
    requires LastIndexOf(s, '.') == Some(k)
    requires |s| - (k + 1) == 1 || |s| - (k + 1) == 65
    ensures !IsValidEmail(s)
  {
    if IsValidEmail(s) {
      ValidEmailFinalSegment(s);
    }
  }

  /** No match contains whitespace anywhere, leading and trailing included. */
  lemma ValidEmailHasNoWhitespace(s: string)
    requires IsValidEmail(s)
    ensures NoWhitespace(s)
  {
    var at, dot := ValidEmailSplits(s);
    forall i | 0 <= i < |s| ensures !IsWhitespace(s[i]) {
      if i < at {
        assert IsLocalChar(s[..at][i]);
      } else if at < i < dot {
        assert IsDomainChar(s[at + 1..dot][i - at - 1]);
      } else if dot < i {
        assert IsAsciiLetter(s[dot + 1..][i - dot - 1]);
      }
    }
  }

  /** The seeded customer address is accepted. */
  lemma SeededEmailAccepted()
    ensures IsValidEmail("jan.kowalski@test.pl")
  {
    var s := "jan.kowalski@test.pl";
    assert s[..12] == "jan.kowalski" && s[13..17] == "test" && s[18..] == "pl";
    SplitIsValidEmail(s, 12, 17);
  }

  /** Without a '.' after the '@' there is no top-level domain. */
  lemma NoDotAfterAtRejected(s: string, at: nat)
    requires at < |s| && s[at] == '@' && '@' !in s[..at]
    requires '.' !in s[at + 1..]
    ensures !IsValidEmail(s)
  {
    IndexOfIsFirst(s, '@', at);
  }

  /** An address without a top-level domain, and the empty string, are rejected. */
  lemma MissingDomainRejected()
    ensures !IsValidEmail("jan.kowalski@test")
    ensures !IsValidEmail("")
  {
    var local, domain := "jan.kowalski", "test";
    var s := local + "@" + domain;
    assert s == "jan.kowalski@test";
    assert s[..12] == local && s[13..] == domain;
    assert '@' !in local;
    assert '.' !in domain;
    NoDotAfterAtRejected(s, 12);
  }
}
