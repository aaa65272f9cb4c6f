/**
 * The string operations the core relies on: `str.lower()`, `str.strip()` and
 * the substring test `keyword in text`, restricted to ASCII.
 */
module Text {

  /** Python's `str.isspace` on ASCII: tab, line feed, vertical tab, form feed,
      carriage return, the four separators 0x1C-0x1F, and space. */
  predicate IsSpace(c: char) {
    ('\t' <= c <= '\r') || ('\U{1C}' <= c <= '\U{1F}') || c == ' '
  }

  predicate IsUpper(c: char) {
    'A' <= c <= 'Z'
  }

  function ToLower(c: char): (r: char)
    ensures !IsUpper(r)
    ensures !IsUpper(c) ==> r == c
    ensures IsUpper(c) ==> r as int == c as int + 32
  {
    if IsUpper(c) then (c as int + 32) as char else c
  }

  /** `s.lower()` on ASCII letters. */
  function Lower(s: string): (r: string)
    ensures |r| == |s|
    ensures forall i :: 0 <= i < |r| ==> !IsUpper(r[i])
    ensures forall i :: 0 <= i < |s| ==> r[i] == ToLower(s[i])
  {
    seq(|s|, i requires 0 <= i < |s| => ToLower(s[i]))
  }

  /** No white space at either end. */
  predicate Trimmed(s: string) {
    s == [] || (!IsSpace(s[0]) && !IsSpace(s[|s| - 1]))
  }

  predicate AllSpace(s: string) {
    forall i :: 0 <= i < |s| ==> IsSpace(s[i])
  }

  /** `s.lstrip()`: `s` without its leading white space. */
  function StripLeading(s: string): string
    decreases |s|
  {
    if s != [] && IsSpace(s[0]) then StripLeading(s[1..]) else s
  }

  /** `s.rstrip()`: `s` without its trailing white space. */
  function StripTrailing(s: string): string
    decreases |s|
  {
    if s != [] && IsSpace(s[|s| - 1]) then StripTrailing(s[..|s| - 1]) else s
  }

  /** `s.strip()`. */
  function Strip(s: string): string {
    StripTrailing(StripLeading(s))
  }

  /** The knowledge-base key of a question: `question.lower().strip()`. */
  function Normalize(question: string): string {
    Strip(Lower(question))
  }

  /** `s.lstrip()` is the suffix of `s` left after dropping white space only,
      and it does not start with white space. */
  lemma {:induction false} StripLeadingIsSuffix(s: string)
    ensures |StripLeading(s)| <= |s| && StripLeading(s) == s[|s| - |StripLeading(s)|..]
    ensures AllSpace(s[..|s| - |StripLeading(s)|])
    ensures StripLeading(s) != [] ==> !IsSpace(StripLeading(s)[0])
    decreases |s|
  {
    if s != [] && IsSpace(s[0]) {
      StripLeadingIsSuffix(s[1..]);
      var n := |s| - |StripLeading(s)|;
      assert forall k :: 1 <= k < n ==> s[..n][k] == s[1..][..n - 1][k - 1];
    }
  }

  /** `s.rstrip()` is the prefix of `s` left after dropping white space only,
      and it does not end with white space. */
  lemma {:induction false} StripTrailingIsPrefix(s: string)
    ensures |StripTrailing(s)| <= |s| && StripTrailing(s) == s[..|StripTrailing(s)|]
    ensures AllSpace(s[|StripTrailing(s)|..])
    ensures StripTrailing(s) != [] ==> !IsSpace(StripTrailing(s)[|StripTrailing(s)| - 1])
    decreases |s|
  {
    if s != [] && IsSpace(s[|s| - 1]) {
      var t := s[..|s| - 1];
      StripTrailingIsPrefix(t);
      var n := |StripTrailing(s)|;
      assert forall k :: 0 <= k < |t| - n ==> s[n..][k] == t[n..][k];
    }
  }

  /** `s.strip()` is a slice of `s` with only white space around it and none at
      either of its ends. */
  lemma {:induction false} StripBounds(s: string) returns (i: nat, j: nat)
    ensures i <= j <= |s| && Strip(s) == s[i..j] && Trimmed(s[i..j])
    ensures AllSpace(s[..i]) && AllSpace(s[j..])
  {
    var l := StripLeading(s);
    StripLeadingIsSuffix(s);
    StripTrailingIsPrefix(l);
    var r := StripTrailing(l);
    assert r != [] ==> r[0] == l[0];
    i, j := |s| - |l|, |s| - |l| + |r|;
    assert r == s[i..j];
    assert s[j..] == l[|r|..];
  }

  /** A string of white space only strips to nothing. */
  lemma {:induction false} StripLeadingAllSpace(s: string)
    requires AllSpace(s)
    ensures StripLeading(s) == []
    decreases |s|
  {
    if s != [] {
      assert forall k :: 0 <= k < |s| - 1 ==> s[1..][k] == s[k + 1];
      StripLeadingAllSpace(s[1..]);
    }
  }

  /** A key is trimmed, has no upper-case letter, and is no longer than its question. */
  lemma {:induction false} NormalizeShape(question: string)
    ensures Trimmed(Normalize(question))
    ensures forall i :: 0 <= i < |Normalize(question)| ==> !IsUpper(Normalize(question)[i])
    ensures |Normalize(question)| <= |question|
  {
    var s := Lower(question);
    var i, j := StripBounds(s);
    assert forall k :: 0 <= k < j - i ==> s[i..j][k] == s[i + k];
  }

  /** `keyword` occurs in `text` starting at position `i`. */
  predicate OccursAt(text: string, keyword: string, i: int) {
    0 <= i <= |text| - |keyword| && text[i..i + |keyword|] == keyword
  }

  /** An occurrence in `text[1..]` is an occurrence in `text` one position later. */
  lemma OccursInTail(text: string, keyword: string)
    requires text != []
    ensures forall i :: OccursAt(text[1..], keyword, i) ==> OccursAt(text, keyword, i + 1)
    ensures forall i :: OccursAt(text, keyword, i) && i > 0 ==> OccursAt(text[1..], keyword, i - 1)
  {
    forall i | OccursAt(text[1..], keyword, i)
      ensures OccursAt(text, keyword, i + 1)
    {
      assert text[1..][i..i + |keyword|] == text[i + 1..i + 1 + |keyword|];
    }
    forall i | OccursAt(text, keyword, i) && i > 0
      ensures OccursAt(text[1..], keyword, i - 1)
    {
      assert text[1..][i - 1..i - 1 + |keyword|] == text[i..i + |keyword|];
    }
  }

  /** `keyword in text`: `keyword` occurs in `text` as a contiguous piece. */
  function Contains(text: string, keyword: string): (r: bool)
    ensures r <==> exists i :: OccursAt(text, keyword, i)
    decreases |text|
  {
    if |keyword| > |text| then false
    else if text[..|keyword|] == keyword then assert OccursAt(text, keyword, 0); true
    else
      var r := Contains(text[1..], keyword);
      OccursInTail(text, keyword);
      r
  }

  /** `any(keyword in text for keyword in keywords)`. */
  function ContainsAny(text: string, keywords: seq<string>): (r: bool)
    ensures r <==> exists j :: 0 <= j < |keywords| && Contains(text, keywords[j])
  {
    exists k | k in keywords :: Contains(text, k)
  }

  lemma {:induction false} LowerOfLowercase(s: string)
    requires forall i :: 0 <= i < |s| ==> !IsUpper(s[i])
    ensures Lower(s) == s
  {
  }

  lemma {:induction false} StripOfTrimmed(s: string)
    requires Trimmed(s)
    ensures Strip(s) == s
  {
  }

  /** Normalising a key again gives the same key, so a stored key is found by
      looking it up as a question. */
  lemma {:induction false} NormalizeIdempotent(question: string)
    ensures Normalize(Normalize(question)) == Normalize(question)
  {
    var key := Normalize(question);
    NormalizeShape(question);
    LowerOfLowercase(key);
    StripOfTrimmed(key);
  }

  lemma SpaceBefore(s: string, i: nat)
    requires i <= |s| && AllSpace(s[..i])
    ensures forall k :: 0 <= k < i ==> IsSpace(s[k])
  {
    assert forall k :: 0 <= k < i ==> s[k] == s[..i][k];
  }

  lemma SpaceAfter(s: string, j: nat)
    requires j <= |s| && AllSpace(s[j..])
    ensures forall k :: j <= k < |s| ==> IsSpace(s[k])
  {
    assert forall k :: j <= k < |s| ==> s[k] == s[j..][k - j];
  }

  /** `Strip` is determined by its contract: any slice with only white space
      around it and none at its ends is the stripped string. */
  lemma {:induction false} StripUnique(s: string, i: nat, j: nat)
    requires i <= j <= |s| && AllSpace(s[..i]) && AllSpace(s[j..]) && Trimmed(s[i..j])
    ensures Strip(s) == s[i..j]
  {
    var i', j' := StripBounds(s);
    SpaceBefore(s, i);
    SpaceAfter(s, j);
    SpaceBefore(s, i');
    SpaceAfter(s, j');
    if i < j {
      assert s[i..j][0] == s[i] && s[i..j][j - i - 1] == s[j - 1];
      if i' < j' {
        assert s[i'..j'][0] == s[i'] && s[i'..j'][j' - i' - 1] == s[j' - 1];
      }
    } else {
      assert AllSpace(s);
      StripLeadingAllSpace(s);
    }
  }

  lemma {:induction false} LowerOfConcat(a: string, b: string)
    ensures Lower(a + b) == Lower(a) + Lower(b)
  {
    forall k | 0 <= k < |a + b| ensures Lower(a + b)[k] == (Lower(a) + Lower(b))[k] {
      if k < |a| { assert (a + b)[k] == a[k]; } else { assert (a + b)[k] == b[k - |a|]; }
    }
  }

  lemma {:induction false} LowerOfPadded(before: string, question: string, after: string)
    requires AllSpace(before) && AllSpace(after)
    ensures Lower(before + question + after) == before + Lower(question) + after
  {
    LowerOfLowercase(before);
    LowerOfLowercase(after);
    LowerOfConcat(before + question, after);
    LowerOfConcat(before, question);
  }

  lemma AllSpaceConcat(a: string, b: string)
    requires AllSpace(a) && AllSpace(b)
    ensures AllSpace(a + b)
  {
    assert forall k :: 0 <= k < |a + b| ==> (a + b)[k] == if k < |a| then a[k] else b[k - |a|];
  }

  lemma SpaceAroundMiddle(t: string, a: nat, b: nat, i: nat, j: nat)
    requires a <= b <= |t| && i <= j <= b - a
    requires AllSpace(t[..a]) && AllSpace(t[b..])
    requires AllSpace(t[a..b][..i]) && AllSpace(t[a..b][j..])
    ensures AllSpace(t[..a + i]) && AllSpace(t[a + j..])
    ensures t[a..b][i..j] == t[a + i..a + j]
  {
    var m := t[a..b];
    SpaceBefore(t, a);
    SpaceAfter(t, b);
    SpaceBefore(m, i);
    SpaceAfter(m, j);
    forall k | 0 <= k < a + i ensures IsSpace(t[k]) {
      if k >= a { assert t[k] == m[k - a]; }
    }
    forall k | a + j <= k < |t| ensures IsSpace(t[k]) {
      if k < b { assert t[k] == m[k - a]; }
    }
    assert forall k :: 0 <= k < a + i ==> t[..a + i][k] == t[k];
    var tail := t[a + j..];
    assert forall k :: 0 <= k < |tail| ==> tail[k] == t[a + j + k];
    assert forall k :: 0 <= k < j - i ==> m[i..j][k] == t[a + i..a + j][k];
  }

  /** Stripping a string with white space around a middle part strips the middle part. */
  lemma {:induction false} StripOfMiddle(t: string, a: nat, b: nat)
    requires a <= b <= |t| && AllSpace(t[..a]) && AllSpace(t[b..])
    ensures Strip(t) == Strip(t[a..b])
  {
    var i, j := StripBounds(t[a..b]);
    SpaceAroundMiddle(t, a, b, i, j);
    StripUnique(t, a + i, a + j);
  }

  /** A lookup key does not depend on the case or on the white space around a
      question: padding it on either side, or lower-casing it first, gives the
      same key. */
  lemma {:induction false} NormalizeIgnoresCaseAndPadding(before: string, question: string, after: string)
    requires AllSpace(before) && AllSpace(after)
    ensures Normalize(before + question + after) == Normalize(question)
    ensures Normalize(Lower(question)) == Normalize(question)
  {
    LowerOfLowercase(Lower(question));
    LowerOfPadded(before, question, after);
    var t := before + Lower(question) + after;
    var a, b := |before|, |before| + |question|;
    assert t[..a] == before && t[b..] == after && t[a..b] == Lower(question);
    StripOfMiddle(t, a, b);
  }
}
