/** ASCII approximations of the Python string operations the classifier
    relies on: `str.strip`, `str.rstrip(chars)`, `str.lower`, `str.isdigit`
    (and the regex class `\d`), the regex word class used by `\b`,
    `str.istitle` and the word count of `str.split()`. */
module Text {

  /** The ASCII characters `str.isspace` accepts, which `str.strip()` and
      `str.split()` remove: tab to carriage return, the four separators
      0x1C to 0x1F, and the space. */
  predicate IsSpace(c: char) {
    c == ' ' || c == '\t' || c == '\n' || c == '\U{000B}' || c == '\U{000C}' || c == '\r' ||
    c == '\U{001C}' || c == '\U{001D}' || c == '\U{001E}' || c == '\U{001F}'
  }

  predicate IsDigit(c: char) {
    '0' <= c <= '9'
  }

  predicate IsUpper(c: char) {
    'A' <= c <= 'Z'
  }

  predicate IsLower(c: char) {
    'a' <= c <= 'z'
  }

  /** The regex word class `\w`: letters, digits and the underscore. */
  predicate IsWordChar(c: char) {
    IsUpper(c) || IsLower(c) || IsDigit(c) || c == '_'
  }

  function LowerChar(c: char): (d: char)
    ensures IsUpper(c) ==> IsLower(d)
    ensures !IsUpper(c) ==> d == c
    ensures IsWordChar(d) <==> IsWordChar(c)
    ensures IsSpace(d) <==> IsSpace(c)
  {
    if IsUpper(c) then (c as int + 32) as char else c
  }

  /** `str.lower()`. */
  function Lower(s: string): (r: string)
    ensures |r| == |s|
    ensures forall i :: 0 <= i < |s| ==> r[i] == LowerChar(s[i])
  {
    seq(|s|, i requires 0 <= i < |s| => LowerChar(s[i]))
  }

  /** `re.search(r'\d', s)`: the string holds at least one digit. */
  predicate ContainsDigit(s: string) {
    exists i :: 0 <= i < |s| && IsDigit(s[i])
  }

  /** `sum(c.isdigit() for c in s)`. */
  function DigitCount(s: string): (n: nat)
    ensures n <= |s|
    ensures n > 0 <==> ContainsDigit(s)
  {
    if s == [] then 0
    else
      var k := DigitCount(s[..|s| - 1]);
      assert forall i :: 0 <= i < |s| - 1 ==> s[..|s| - 1][i] == s[i];
      if IsDigit(s[|s| - 1]) then k + 1 else k
  }

  /** Counting digits is additive over concatenation ... */
  lemma {:induction false} DigitCountConcat(a: string, b: string)
    ensures DigitCount(a + b) == DigitCount(a) + DigitCount(b)
    decreases |b|
  {
    if b == [] {
      assert a + b == a;
    } else {
      var init := b[..|b| - 1];
      DigitCountConcat(a, init);
      assert (a + b)[..|a + b| - 1] == a + init;
    }
  }

  /** ... and a single character counts one exactly when it is a digit. */
  lemma DigitCountChar(c: char)
    ensures DigitCount([c]) == if IsDigit(c) then 1 else 0
  {
    assert [c][..0] == [];
  }

  /** `str.lstrip()`: drops leading whitespace. */
  function LStrip(s: string): (r: string)
    ensures |r| <= |s| && r == s[|s| - |r|..]
    ensures forall i :: 0 <= i < |s| - |r| ==> IsSpace(s[i])
    ensures r == [] || !IsSpace(r[0])
  {
    if |s| > 0 && IsSpace(s[0]) then LStrip(s[1..]) else s
  }

  /** `str.rstrip(chars)`: drops trailing characters drawn from `chars`. */
  function RStripChars(s: string, chars: set<char>): (r: string)
    ensures |r| <= |s| && r == s[..|r|]
    ensures forall i :: |r| <= i < |s| ==> s[i] in chars
    ensures r == [] || r[|r| - 1] !in chars
  {
    if |s| > 0 && s[|s| - 1] in chars then RStripChars(s[..|s| - 1], chars) else s
  }

  /** The characters `IsSpace` accepts, as the set `str.strip()` removes. */
  const Whitespace: set<char> :=
    {' ', '\t', '\n', '\U{000B}', '\U{000C}', '\r', '\U{001C}', '\U{001D}', '\U{001E}', '\U{001F}'}

  /** `str.strip()`: drops leading and trailing whitespace. */
  function Strip(s: string): (r: string)
    ensures r == [] || (!IsSpace(r[0]) && !IsSpace(r[|r| - 1]))
    ensures |r| <= |s|
  {
    RStripChars(LStrip(s), Whitespace)
  }

  /** The length of the run of leading whitespace `lstrip()` removes. */
  function LeadingSpace(s: string): (n: nat)
    ensures n <= |s|
  {
    |s| - |LStrip(s)|
  }

  /** `strip()` removes only whitespace, and only from the two ends: the
      result is the slice of the input between the leading run of
      whitespace and a trailing run of whitespace. */
  lemma StripIsSlice(s: string)
    ensures var r, i := Strip(s), LeadingSpace(s);
      && i + |r| <= |s|
      && r == s[i..i + |r|]
      && (forall k :: 0 <= k < i ==> IsSpace(s[k]))
      && (forall k :: i + |r| <= k < |s| ==> IsSpace(s[k]))
  {
    var l := LStrip(s);
    var r := RStripChars(l, Whitespace);
    forall j | |r| <= j < |l| ensures IsSpace(l[j]) {
      WhitespaceIsSpace(l[j]);
    }
    PrefixOfTail(s, l, r, LeadingSpace(s));
  }

  lemma WhitespaceIsSpace(c: char)
    requires c in Whitespace
    ensures IsSpace(c)
  {
  }

  /** A prefix `r` of the tail `l` of `s` from `i`, followed in `l` by
      whitespace only, is the slice of `s` from `i`, followed in `s` by
      whitespace only. */
  lemma PrefixOfTail(s: string, l: string, r: string, i: nat)
    requires i + |l| == |s| && l == s[i..]
    requires |r| <= |l| && r == l[..|r|]
    requires forall j :: |r| <= j < |l| ==> IsSpace(l[j])
    ensures r == s[i..i + |r|]
    ensures forall k :: i + |r| <= k < |s| ==> IsSpace(s[k])
  {
    forall k | i + |r| <= k < |s| ensures IsSpace(s[k]) {
      assert s[k] == l[k - i];
    }
  }

  /** A string that starts and ends with a non-space character is its own
      `strip()`. */
  lemma {:induction false} StripKeeps(s: string)
    requires s != [] && !IsSpace(s[0]) && !IsSpace(s[|s| - 1])
    ensures Strip(s) == s
  {
    assert LStrip(s) == s;
    assert s[|s| - 1] !in Whitespace;
  }

  /** `needle in haystack` for two strings. */
  predicate IsSubstring(needle: string, haystack: string) {
    exists i :: 0 <= i <= |haystack| - |needle| && OccursAt(needle, haystack, i)
  }

  predicate OccursAt(needle: string, haystack: string, i: nat)
    requires i + |needle| <= |haystack|
  {
    haystack[i..i + |needle|] == needle
  }

  /** Whether the regex assertion `\b` holds at position `p` of `s`. */
  predicate AtWordBoundary(s: string, p: int) {
    0 <= p <= |s| &&
    ((p > 0 && IsWordChar(s[p - 1])) != (p < |s| && IsWordChar(s[p])))
  }

  /** The scan of `str.istitle()` from a given "previous character was
      cased" state: an upper-case letter may only follow an uncased
      character, a lower-case letter only a cased one. */
  predicate TitleScan(s: string, previousCased: bool)
    decreases |s|
  {
    if s == [] then true
    else if IsUpper(s[0]) then !previousCased && TitleScan(s[1..], true)
    else if IsLower(s[0]) then previousCased && TitleScan(s[1..], true)
    else TitleScan(s[1..], false)
  }

  /** Whether the character before position `i` of `s` is cased, with
      `previousCased` standing in for the character before the start. */
  predicate CasedBefore(s: string, i: nat, previousCased: bool)
    requires i <= |s|
  {
    if i == 0 then previousCased else IsUpper(s[i - 1]) || IsLower(s[i - 1])
  }

  /** The scan accepts exactly the strings in which every cased letter is
      upper-case when it follows an uncased character and lower-case when
      it follows a cased one. */
  lemma {:induction false} TitleScanSpec(s: string, previousCased: bool)
    ensures TitleScan(s, previousCased) <==>
      forall i :: 0 <= i < |s| && (IsUpper(s[i]) || IsLower(s[i])) ==>
        (IsUpper(s[i]) <==> !CasedBefore(s, i, previousCased))
    decreases |s|
  {
    if s != [] {
      var cased := IsUpper(s[0]) || IsLower(s[0]);
      var rest := s[1..];
      TitleScanSpec(rest, cased);
      assert forall i :: 1 <= i < |s| ==> rest[i - 1] == s[i];
      assert forall i :: 1 <= i < |s| ==> CasedBefore(rest, i - 1, cased) == CasedBefore(s, i, previousCased);
    }
  }

  /** `str.istitle()`: title-cased and holding at least one cased letter. */
  predicate IsTitle(s: string) {
    TitleScan(s, false) && exists i :: 0 <= i < |s| && (IsUpper(s[i]) || IsLower(s[i]))
  }

  /** `len(str.split())`: the number of maximal runs of non-space characters. */
  function WordCount(s: string): (n: nat)
    ensures n <= |s|
  {
    if s == [] then 0
    else
      var last := |s| - 1;
      var starts := !IsSpace(s[last]) && (last == 0 || IsSpace(s[last - 1]));
      WordCount(s[..last]) + if starts then 1 else 0
  }

  /** A string has a word exactly when it has a non-space character. */
  lemma {:induction false} WordCountPositive(s: string)
    ensures WordCount(s) > 0 <==> exists i :: 0 <= i < |s| && !IsSpace(s[i])
    decreases |s|
  {
    if s != [] {
      var last := |s| - 1;
      WordCountPositive(s[..last]);
      assert forall i :: 0 <= i < last ==> s[..last][i] == s[i];
    }
  }

  /** Joining two strings at whitespace adds their word counts: no word
      spans the join. */
  lemma {:induction false} WordCountConcat(a: string, b: string)
    requires a == [] || b == [] || IsSpace(a[|a| - 1]) || IsSpace(b[0])
    ensures WordCount(a + b) == WordCount(a) + WordCount(b)
    decreases |b|
  {
    if b == [] {
      assert a + b == a;
    } else {
      var init := b[..|b| - 1];
      assert (a + b)[..|a + b| - 1] == a + init;
      WordCountConcat(a, init);
    }
  }

  /** A non-empty run of non-space characters is one word. */
  lemma {:induction false} WordCountWord(w: string)
    requires w != [] && forall i :: 0 <= i < |w| ==> !IsSpace(w[i])
    ensures WordCount(w) == 1
    decreases |w|
  {
    var last := |w| - 1;
    if last > 0 {
      var init := w[..last];
      assert forall i :: 0 <= i < |init| ==> init[i] == w[i];
      WordCountWord(init);
    }
  }

  /** A string of whitespace only has no word. */
  lemma WordCountBlank(s: string)
    requires forall i :: 0 <= i < |s| ==> IsSpace(s[i])
    ensures WordCount(s) == 0
  {
    WordCountPositive(s);
  }

  /** A non-space character at `i`, whitespace at `j` and a non-space
      character at `k`, in that order, make at least two words. */
  lemma {:induction false} TwoWordsFrom(s: string, i: nat, j: nat, k: nat)
    requires i < j < k < |s| && !IsSpace(s[i]) && IsSpace(s[j]) && !IsSpace(s[k])
    ensures WordCount(s) > 1
    decreases |s|
  {
    var last := |s| - 1;
    var init := s[..last];
    assert forall m :: 0 <= m < last ==> init[m] == s[m];
    if k < last {
      TwoWordsFrom(init, i, j, k);
    } else if IsSpace(s[last - 1]) {
      WordCountPositive(init);
      assert !IsSpace(init[i]);
    } else {
      TwoWordsFrom(init, i, j, last - 1);
    }
  }

  /** Two words are separated by whitespace: some non-space character is
      followed, across whitespace, by another. */
  lemma {:induction false} TwoWordsWitness(s: string) returns (i: nat, j: nat, k: nat)
    requires WordCount(s) > 1
    ensures i < j < k < |s| && !IsSpace(s[i]) && IsSpace(s[j]) && !IsSpace(s[k])
    decreases |s|
  {
    var last := |s| - 1;
    var init := s[..last];
    assert forall m :: 0 <= m < last ==> init[m] == s[m];
    if WordCount(init) > 1 {
      i, j, k := TwoWordsWitness(init);
      assert init[i] == s[i] && init[j] == s[j] && init[k] == s[k];
    } else {
      WordCountPositive(init);
      var m :| 0 <= m < last && !IsSpace(init[m]);
      i, j, k := m, last - 1, last;
    }
  }

  /** `split()` finds more than one word exactly when a non-space character
      is followed, across some whitespace, by another one. */
  lemma WordCountMany(s: string)
    ensures WordCount(s) > 1 <==>
      exists i, j, k :: 0 <= i < j < k < |s| && !IsSpace(s[i]) && IsSpace(s[j]) && !IsSpace(s[k])
  {
    if WordCount(s) > 1 {
      var i, j, k := TwoWordsWitness(s);
    }
    if exists i, j, k :: 0 <= i < j < k < |s| && !IsSpace(s[i]) && IsSpace(s[j]) && !IsSpace(s[k]) {
      var i, j, k :| 0 <= i < j < k < |s| && !IsSpace(s[i]) && IsSpace(s[j]) && !IsSpace(s[k]);
      TwoWordsFrom(s, i, j, k);
    }
  }
}
