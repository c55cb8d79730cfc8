/** Text helpers the views rely on: whitespace trimming, ASCII case folding,
    substring search and the lexicographic order of strings. */
module Text {

  /** The characters of Foundation's `whitespacesAndNewlines` set: the Unicode
      separators (Zs, Zl, Zp), tab, U+000A..U+000D and U+0085. */
  predicate IsWhitespace(c: char) {
    c == '\t' || ('\n' <= c <= '\r') || c == ' ' || c == '\U{85}' || c == '\U{A0}'
    || c == '\U{1680}' || ('\U{2000}' <= c <= '\U{200A}') || c == '\U{2028}' || c == '\U{2029}'
    || c == '\U{202F}' || c == '\U{205F}' || c == '\U{3000}'
  }

  predicate AllWhitespace(s: string) {
    forall i :: 0 <= i < |s| ==> IsWhitespace(s[i])
  }

  predicate NoWhitespace(s: string) {
    forall i :: 0 <= i < |s| ==> !IsWhitespace(s[i])
  }

  /** Number of whitespace characters at the front of `s`. */
  function LeadingWhitespace(s: string): (n: nat)
    ensures n <= |s|
    ensures forall i :: 0 <= i < n ==> IsWhitespace(s[i])
    ensures n < |s| ==> !IsWhitespace(s[n])
  {
    if |s| > 0 && IsWhitespace(s[0]) then 1 + LeadingWhitespace(s[1..]) else 0
  }

  /** Number of whitespace characters at the back of `s`. */
  function TrailingWhitespace(s: string): (n: nat)
    ensures n <= |s|
    ensures forall i :: |s| - n <= i < |s| ==> IsWhitespace(s[i])
    ensures n < |s| ==> !IsWhitespace(s[|s| - 1 - n])
  {
    if |s| > 0 && IsWhitespace(s[|s| - 1]) then 1 + TrailingWhitespace(s[..|s| - 1]) else 0
  }

  /** `trimmingCharacters(in: .whitespacesAndNewlines)`. */
  function Trim(s: string): (r: string)
    ensures r == [] <==> AllWhitespace(s)
    ensures r != [] ==> !IsWhitespace(r[0]) && !IsWhitespace(r[|r| - 1])
    ensures |r| <= |s|
    ensures s == [] || (!IsWhitespace(s[0]) && !IsWhitespace(s[|s| - 1])) ==> r == s
    ensures exists i, j :: 0 <= i <= j <= |s| && r == s[i..j] && AllWhitespace(s[..i]) && AllWhitespace(s[j..])
  {
    var lead := LeadingWhitespace(s);
    var t := s[lead..];
    var trail := TrailingWhitespace(t);
    TrimEnds(s, lead, t, trail);
    TrimSlice(s, lead, t, trail);
    t[..|t| - trail]
  }

  /** The trimmed string is the slice between the leading and the trailing
      whitespace. */
  lemma TrimSlice(s: string, lead: nat, t: string, trail: nat)
    requires lead <= |s| && t == s[lead..] && trail <= |t|
    requires forall i :: 0 <= i < lead ==> IsWhitespace(s[i])
    requires forall i :: |t| - trail <= i < |t| ==> IsWhitespace(t[i])
    ensures var j := |s| - trail;
      && 0 <= lead <= j <= |s| && t[..|t| - trail] == s[lead..j]
      && AllWhitespace(s[..lead]) && AllWhitespace(s[j..])
  {
    var j := |s| - trail;
    assert |t| == |s| - lead;
    forall k | 0 <= k < lead
      ensures IsWhitespace(s[..lead][k])
    {
      assert s[..lead][k] == s[k];
    }
    forall k | 0 <= k < trail
      ensures IsWhitespace(s[j..][k])
    {
      assert s[j..][k] == t[|t| - trail + k];
    }
    assert t[..|t| - trail] == s[lead..j];
  }

  lemma TrimEnds(s: string, lead: nat, t: string, trail: nat)
    requires lead == LeadingWhitespace(s) && t == s[lead..] && trail == TrailingWhitespace(t)
    ensures t[..|t| - trail] == [] <==> AllWhitespace(s)
    ensures t[..|t| - trail] != [] ==> !IsWhitespace(t[0]) && !IsWhitespace(t[|t| - 1 - trail])
    ensures s == [] || (!IsWhitespace(s[0]) && !IsWhitespace(s[|s| - 1])) ==> t[..|t| - trail] == s
  {
    if lead < |s| {
      TrimNonBlank(s, lead, t, trail);
    }
    if s != [] && !IsWhitespace(s[0]) && !IsWhitespace(s[|s| - 1]) {
      assert lead == 0;
      assert t == s;
      assert trail == 0;
    }
  }

  /** Past the leading whitespace stands a character that is not whitespace,
      so the trailing count stops before it. */
  lemma TrimNonBlank(s: string, lead: nat, t: string, trail: nat)
    requires lead == LeadingWhitespace(s) && lead < |s|
    requires t == s[lead..] && trail == TrailingWhitespace(t)
    ensures trail < |t| && !IsWhitespace(t[0]) && !AllWhitespace(s)
  {
    assert t[0] == s[lead];
    assert !IsWhitespace(s[lead]);
  }

  /** Trimming a string that holds no whitespace changes nothing. */
  lemma TrimNoWhitespace(s: string)
    requires NoWhitespace(s)
    ensures Trim(s) == s
  {
  }

  /** ASCII case folding (upper-case letters to lower case). */
  function FoldChar(c: char): (d: char)
    ensures 'A' <= c <= 'Z' ==> d as int == c as int + 32
    ensures !('A' <= c <= 'Z') ==> d == c
  {
    if 'A' <= c <= 'Z' then (c as int + 32) as char else c
  }

  function Fold(s: string): (r: string)
    ensures |r| == |s|
    ensures forall i :: 0 <= i < |s| ==> r[i] == FoldChar(s[i])
  {
    seq(|s|, i requires 0 <= i < |s| => FoldChar(s[i]))
  }

  /** Declarative reading of "needle occurs in hay at some position". */
  ghost predicate OccursIn(needle: string, hay: string) {
    exists i :: 0 <= i <= |hay| - |needle| && IsPrefix(needle, hay[i..])
  }

  predicate IsPrefix(p: string, s: string) {
    |p| <= |s| && s[..|p|] == p
  }

  /** Hand-written substring search: try every start position from the left. */
  function Contains(hay: string, needle: string): (b: bool)
    decreases |hay|
  {
    if IsPrefix(needle, hay) then true
    else if |hay| <= |needle| then false
    else Contains(hay[1..], needle)
  }

  lemma {:induction false} ContainsIffOccurs(hay: string, needle: string)
    ensures Contains(hay, needle) <==> OccursIn(needle, hay)
    decreases |hay|
  {
    if IsPrefix(needle, hay) {
      assert hay[0..] == hay;
    } else if |hay| <= |needle| {
      forall i | 0 <= i <= |hay| - |needle|
        ensures !IsPrefix(needle, hay[i..])
      {
        assert hay[i..] == hay;
      }
    } else {
      ContainsIffOccurs(hay[1..], needle);
      if OccursIn(needle, hay) {
        var i :| 0 <= i <= |hay| - |needle| && IsPrefix(needle, hay[i..]);
        assert i != 0 by { assert hay[0..] == hay; }
        assert hay[1..][i - 1..] == hay[i..];
      }
      if OccursIn(needle, hay[1..]) {
        var i :| 0 <= i <= |hay[1..]| - |needle| && IsPrefix(needle, hay[1..][i..]);
        assert hay[1..][i..] == hay[i + 1..];
      }
    }
  }

  /** A needle holding a character the hay lacks does not occur in it. */
  lemma MissingCharNotContained(hay: string, needle: string, c: char)
    requires c in needle && c !in hay
    ensures !Contains(hay, needle)
  {
    ContainsIffOccurs(hay, needle);
    var k :| 0 <= k < |needle| && needle[k] == c;
    forall i | 0 <= i <= |hay| - |needle|
      ensures !IsPrefix(needle, hay[i..])
    {
      assert hay[i + k] != c;
    }
  }

  /** A needle found at a known position is contained. */
  lemma ContainsAt(hay: string, needle: string, i: nat)
    requires i + |needle| <= |hay| && hay[i..i + |needle|] == needle
    ensures Contains(hay, needle)
  {
    ContainsIffOccurs(hay, needle);
    assert IsPrefix(needle, hay[i..]);
  }

  /** `localizedCaseInsensitiveContains`, with case folding limited to ASCII.
      Foundation reports no match for an empty needle. */
  function CaseInsensitiveContains(hay: string, needle: string): (b: bool)
    ensures b ==> needle != []
    ensures b <==> needle != [] && OccursIn(Fold(needle), Fold(hay))
  {
    ContainsIffOccurs(Fold(hay), Fold(needle));
    needle != [] && Contains(Fold(hay), Fold(needle))
  }

  /** Swift's `<` on strings, read as lexicographic order on code points. */
  predicate TextLess(a: string, b: string)
    decreases |a|
  {
    if a == [] then b != []
    else if b == [] then false
    else if a[0] != b[0] then a[0] < b[0]
    else TextLess(a[1..], b[1..])
  }

  lemma {:induction false} TextLessIrreflexive(a: string)
    ensures !TextLess(a, a)
    decreases |a|
  {
    if a != [] { TextLessIrreflexive(a[1..]); }
  }

  lemma {:induction false} TextLessTransitive(a: string, b: string, c: string)
    requires TextLess(a, b) && TextLess(b, c)
    ensures TextLess(a, c)
    decreases |a|
  {
    if a != [] && b != [] && c != [] && a[0] == b[0] && b[0] == c[0] {
      TextLessTransitive(a[1..], b[1..], c[1..]);
    }
  }

  /** No two strings precede each other. */
  lemma TextLessAsymmetric(a: string, b: string)
    ensures TextLess(a, b) ==> !TextLess(b, a)
  {
    if TextLess(a, b) && TextLess(b, a) {
      TextLessTransitive(a, b, a);
      TextLessIrreflexive(a);
    }
  }

  lemma {:induction false} TextLessTotal(a: string, b: string)
    ensures a == b || TextLess(a, b) || TextLess(b, a)
    decreases |a|
  {
    if a != [] && b != [] && a[0] == b[0] {
      TextLessTotal(a[1..], b[1..]);
      if a[1..] == b[1..] {
        assert a == [a[0]] + a[1..] && b == [b[0]] + b[1..];
      }
    }
  }
}
