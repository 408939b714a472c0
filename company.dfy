/** The company-name splitter: the legal suffixes are tried longest first,
    each as the pattern `\b<suffix>[.]?$` searched case-insensitively over
    the untrimmed value; the first that matches splits the value into a
    name and a legal form. */
module Company {
  import opened Text
  import opened Reference

  // ---- sorting the suffixes by length, longest first ----

  predicate SortedByLengthDesc(xs: seq<string>) {
    forall i, j :: 0 <= i < j < |xs| ==> |xs[i]| >= |xs[j]|
  }

  /** Puts `x` in front of the first element no longer than it. */
  function Insert(x: string, xs: seq<string>): seq<string> {
    if xs == [] then [x]
    else if |xs[0]| > |x| then [xs[0]] + Insert(x, xs[1..])
    else [x] + xs
  }

  /** `sorted(suffixes, key=len, reverse=True)`: an insertion sort, stable
      like Python's, so equal-length suffixes keep their order. */
  function SortByLength(xs: seq<string>): seq<string> {
    if xs == [] then [] else Insert(xs[0], SortByLength(xs[1..]))
  }

  /** Inserting keeps the elements, adding `x`. */
  lemma {:induction false} InsertPermutes(x: string, xs: seq<string>)
    ensures multiset(Insert(x, xs)) == multiset(xs) + multiset{x}
  {
    if xs != [] && |xs[0]| > |x| {
      InsertPermutes(x, xs[1..]);
      assert xs == [xs[0]] + xs[1..];
    }
  }

  /** Inserting into a list sorted longest first keeps it sorted. */
  lemma {:induction false} InsertSorted(x: string, xs: seq<string>)
    requires SortedByLengthDesc(xs)
    ensures SortedByLengthDesc(Insert(x, xs))
    ensures Insert(x, xs)[0] == x || (xs != [] && Insert(x, xs)[0] == xs[0])
  {
    if xs != [] && |xs[0]| > |x| {
      InsertSorted(x, xs[1..]);
      var rest := Insert(x, xs[1..]);
      assert |rest[0]| <= |xs[0]|;
    }
  }

  /** The sort orders by length, longest first, and keeps the elements. */
  lemma {:induction false} SortByLengthSpec(xs: seq<string>)
    ensures SortedByLengthDesc(SortByLength(xs))
    ensures multiset(SortByLength(xs)) == multiset(xs)
  {
    if xs != [] {
      SortByLengthSpec(xs[1..]);
      InsertSorted(xs[0], SortByLength(xs[1..]));
      InsertPermutes(xs[0], SortByLength(xs[1..]));
      assert xs == [xs[0]] + xs[1..];
    }
  }

  // ---- one suffix ----

  /** The pattern built from suffix `s` matches `v` starting at `p`: a word
      boundary at `p`, then `s` ignoring case, then an optional `.`, then the
      end of the value. */
  predicate MatchesAt(v: string, s: string, p: int) {
    0 <= p <= |v| &&
    (Lower(v[p..]) == Lower(s) || Lower(v[p..]) == Lower(s) + ".") &&
    AtWordBoundary(v, p)
  }

  /** `pattern.search(v) is not None`. */
  predicate Matches(v: string, s: string) {
    exists p :: 0 <= p <= |v| && MatchesAt(v, s, p)
  }

  /** `pattern.search(v).start()`: the leftmost start of a match. A match
      spans the rest of the value, so it can only start where the dotted
      form or the plain form would fit. */
  function SuffixMatch(v: string, s: string): (r: Option<nat>)
    ensures r.None? <==> !Matches(v, s)
    ensures r.Some? ==> MatchesAt(v, s, r.value) && forall q :: q < r.value ==> !MatchesAt(v, s, q)
  {
    if |v| >= |s| + 1 && MatchesAt(v, s, |v| - |s| - 1) then Some(|v| - |s| - 1)
    else if |v| >= |s| && MatchesAt(v, s, |v| - |s|) then Some(|v| - |s|)
    else
      assert forall p :: MatchesAt(v, s, p) ==> p == |v| - |s| - 1 || p == |v| - |s|;
      None
  }

  // ---- the search over the sorted suffixes ----

  /** The loop over the sorted suffixes, from position `k` on, with its
      early return: the index of the first suffix whose pattern matches. */
  function FirstMatchFrom(sorted: seq<string>, v: string, k: nat): (r: Option<nat>)
    requires k <= |sorted|
    ensures r.None? <==> forall j :: k <= j < |sorted| ==> !Matches(v, sorted[j])
    ensures r.Some? ==>
      k <= r.value < |sorted| && Matches(v, sorted[r.value]) &&
      forall j :: k <= j < r.value ==> !Matches(v, sorted[j])
    decreases |sorted| - k
  {
    if k == |sorted| then None
    else if SuffixMatch(v, sorted[k]).Some? then Some(k)
    else FirstMatchFrom(sorted, v, k + 1)
  }

  lemma SortedHasSame(xs: seq<string>, s: string)
    ensures s in SortByLength(xs) <==> s in xs
  {
    var ys := SortByLength(xs);
    SortByLengthSpec(xs);
    assert s in ys <==> s in multiset(ys);
    assert s in xs <==> s in multiset(xs);
  }

  /** A suffix list sorted longest first puts a strictly longer suffix
      before a shorter one. */
  lemma LongerComesFirst(sorted: seq<string>, i: nat, j: nat)
    requires SortedByLengthDesc(sorted)
    requires i < |sorted| && j < |sorted| && |sorted[j]| > |sorted[i]|
    ensures j < i
  {
  }

  /** No suffix of the list longer than `s` matches `value`. */
  predicate NoLongerMatch(legalSuffixes: seq<string>, value: string, s: string) {
    forall t :: t in legalSuffixes && |t| > |s| ==> !Matches(value, t)
  }

  /** A matched suffix and where its match starts. */
  datatype Match = Match(suffix: string, start: nat)

  /** The suffix the search over the length-sorted list settles on: a
      suffix of the list that matches, at the leftmost start of its match,
      with no longer suffix of the list matching; none exactly when no
      suffix of the list matches. */
  function FindSuffix(legalSuffixes: seq<string>, value: string): (r: Option<Match>)
    ensures r.None? <==> forall s :: s in legalSuffixes ==> !Matches(value, s)
    ensures r.Some? ==>
      r.value.suffix in legalSuffixes && SuffixMatch(value, r.value.suffix) == Some(r.value.start) &&
      NoLongerMatch(legalSuffixes, value, r.value.suffix)
  {
    var sorted := SortByLength(legalSuffixes);
    SortByLengthSpec(legalSuffixes);
    match FirstMatchFrom(sorted, value, 0)
    case None =>
      assert forall s :: s in legalSuffixes ==> !Matches(value, s) by {
        forall s | s in legalSuffixes ensures !Matches(value, s) {
          SortedHasSame(legalSuffixes, s);
        }
      }
      None
    case Some(i) =>
      var s := sorted[i];
      SortedHasSame(legalSuffixes, s);
      assert forall t :: t in legalSuffixes && |t| > |s| ==> !Matches(value, t) by {
        forall t | t in legalSuffixes && |t| > |s| ensures !Matches(value, t) {
          SortedHasSame(legalSuffixes, t);
          var j :| 0 <= j < |sorted| && sorted[j] == t;
          LongerComesFirst(sorted, i, j);
        }
      }
      Some(Match(s, SuffixMatch(value, s).value))
  }

  datatype CompanyParts = CompanyParts(name: string, legal: string)

  /** The characters stripped from the end of the name once it is trimmed. */
  const NameTrailers: set<char> := {',', '.', '-', ' '}

  /** The name half of a split at `start`: the text before it, trimmed,
      without trailing `,.- `; so it never ends in one of those. */
  function NamePart(value: string, start: nat): (name: string)
    requires start <= |value|
    ensures name == [] || name[|name| - 1] !in NameTrailers
    ensures |name| <= start
  {
    RStripChars(Strip(value[..start]), NameTrailers)
  }

  /** `parse_company`: the value before the match, trimmed and without
      trailing `,.- `, and the match itself, trimmed; or the value unchanged
      and an empty legal form when no suffix matches. */
  function ParseCompany(legalSuffixes: seq<string>, value: string): (r: CompanyParts)
    ensures (forall s :: s in legalSuffixes ==> !Matches(value, s)) ==> r == CompanyParts(value, "")
    ensures r.name != value ==> r.name == [] || r.name[|r.name| - 1] !in NameTrailers
  {
    match FindSuffix(legalSuffixes, value)
    case None => CompanyParts(value, "")
    case Some(m) => CompanyParts(NamePart(value, m.start), Strip(value[m.start..]))
  }

  // ---- what the splitter guarantees ----

  /** When `s` matches and no other suffix of the list at least as long
      does, the search settles on `s`, at the leftmost start of its match. */
  lemma FindSuffixIs(legalSuffixes: seq<string>, value: string, s: string, p: nat)
    requires s in legalSuffixes && SuffixMatch(value, s) == Some(p)
    requires forall t :: t in legalSuffixes && |t| >= |s| && t != s ==> !Matches(value, t)
    ensures FindSuffix(legalSuffixes, value) == Some(Match(s, p))
  {
    var m := FindSuffix(legalSuffixes, value).value;
    assert Matches(value, m.suffix);
  }

  /** What a match of a valid suffix `s` at `p` looks like: the tail from
      `p` is the suffix itself in any case, optionally followed by a dot; it
      starts with a word character and ends with no whitespace. */
  lemma MatchedTail(v: string, s: string, p: nat)
    requires ValidSuffix(s) && MatchesAt(v, s, p)
    ensures Lower(v[p..]) == s || Lower(v[p..]) == s + "."
    ensures |v| - p == |s| || |v| - p == |s| + 1
    ensures |v| - p >= 1 && IsWordChar(v[p]) && !IsSpace(v[|v| - 1])
  {
    var t := v[p..];
    assert Lower(t)[0] == s[0];
    assert LowerChar(t[0]) == s[0];
    assert !IsSpace(Lower(t)[|t| - 1]);
    assert LowerChar(t[|t| - 1]) == Lower(t)[|t| - 1];
  }

  /** So trimming a match of a valid suffix leaves it whole. */
  lemma MatchedTailTrimmed(v: string, s: string, p: nat)
    requires ValidSuffix(s) && MatchesAt(v, s, p)
    ensures Strip(v[p..]) == v[p..]
  {
    MatchedTail(v, s, p);
    StripKeeps(v[p..]);
  }

  /** Nothing matches exactly when the value comes back unchanged with an
      empty legal form (for valid suffixes, whose matches are never empty). */
  lemma NoMatchPassThrough(legalSuffixes: seq<string>, value: string)
    requires ValidSuffixes(legalSuffixes)
    ensures (forall s :: s in legalSuffixes ==> !Matches(value, s)) <==>
            ParseCompany(legalSuffixes, value).legal == []
  {
    var r := FindSuffix(legalSuffixes, value);
    if r.Some? {
      var m := r.value;
      var k :| 0 <= k < |legalSuffixes| && legalSuffixes[k] == m.suffix;
      MatchedTail(value, m.suffix, m.start);
      MatchedTailTrimmed(value, m.suffix, m.start);
    }
  }

  /** Because the search runs on the untrimmed value, a value ending in
      whitespace never matches and comes back unsplit. */
  lemma TrailingSpacePassThrough(legalSuffixes: seq<string>, value: string)
    requires ValidSuffixes(legalSuffixes)
    requires value != [] && IsSpace(value[|value| - 1])
    ensures ParseCompany(legalSuffixes, value) == CompanyParts(value, "")
  {
    forall s | s in legalSuffixes ensures !Matches(value, s) {
      if p :| 0 <= p <= |value| && MatchesAt(value, s, p) {
        var k :| 0 <= k < |legalSuffixes| && legalSuffixes[k] == s;
        MatchedTail(value, s, p);
      }
    }
  }

  /** Inside a run of word characters there is no word boundary. */
  lemma NoBoundaryInsideWord(v: string, q: nat)
    requires 0 < q < |v| && IsWordChar(v[q - 1]) && IsWordChar(v[q])
    ensures !AtWordBoundary(v, q)
  {
  }

  /** Two valid suffixes of the same length whose patterns both match the
      same value are the same suffix: their matches would have to start at
      the same place, or one of them inside a word, where there is no
      boundary. */
  lemma SameLengthMatchUnique(v: string, s: string, t: string, p: nat, q: nat)
    requires ValidSuffix(s) && ValidSuffix(t) && |s| == |t|
    requires MatchesAt(v, s, p) && MatchesAt(v, t, q)
    ensures s == t
  {
    MatchedTail(v, s, p);
    MatchedTail(v, t, q);
    if p < q {
      NoBoundaryInsideWord(v, q);
      assert false;
    } else if q < p {
      NoBoundaryInsideWord(v, p);
      assert false;
    } else {
      var lowered := Lower(v[p..]);
      if lowered == s {
        assert lowered == t;
      } else {
        assert lowered == s + "." && lowered == t + ".";
        assert s == lowered[..|s|] && t == lowered[..|t|];
      }
    }
  }

  /** The match the search settles on spells its suffix, in some case,
      optionally followed by a dot, up to the end of the value. */
  lemma FoundSpelling(legalSuffixes: seq<string>, value: string)
    requires ValidSuffixes(legalSuffixes)
    requires FindSuffix(legalSuffixes, value).Some?
    ensures var m := FindSuffix(legalSuffixes, value).value;
      m.start <= |value| && AtWordBoundary(value, m.start) &&
      (Lower(value[m.start..]) == m.suffix || Lower(value[m.start..]) == m.suffix + ".")
  {
    var m := FindSuffix(legalSuffixes, value).value;
    var k :| 0 <= k < |legalSuffixes| && legalSuffixes[k] == m.suffix;
    MatchedTail(value, m.suffix, m.start);
  }

  /** A non-empty legal form is the whole match, from its start to the end
      of the value. */
  lemma LegalIsMatchedTail(legalSuffixes: seq<string>, value: string, legal: string)
    requires ValidSuffixes(legalSuffixes)
    requires ParseCompany(legalSuffixes, value).legal == legal != []
    ensures FindSuffix(legalSuffixes, value).Some?
    ensures var m := FindSuffix(legalSuffixes, value).value;
      MatchesAt(value, m.suffix, m.start) && legal == value[m.start..]
  {
    var m := FindSuffix(legalSuffixes, value).value;
    var k :| 0 <= k < |legalSuffixes| && legalSuffixes[k] == m.suffix;
    MatchedTailTrimmed(value, m.suffix, m.start);
  }

  /** A non-empty legal form is a tail of the input that starts at a word
      boundary (`\b`, `$`). */
  lemma LegalAtEnd(legalSuffixes: seq<string>, value: string, legal: string)
    requires ValidSuffixes(legalSuffixes)
    requires ParseCompany(legalSuffixes, value).legal == legal != []
    ensures |legal| <= |value| && value[|value| - |legal|..] == legal
    ensures AtWordBoundary(value, |value| - |legal|)
  {
    LegalIsMatchedTail(legalSuffixes, value, legal);
  }

  /** A non-empty legal form spells, in some case and with at most one
      trailing dot, a suffix of the list, and no longer suffix of the list
      matches the input: the longest suffix wins. */
  lemma MatchedLegalForm(legalSuffixes: seq<string>, value: string, legal: string)
    requires ValidSuffixes(legalSuffixes)
    requires ParseCompany(legalSuffixes, value).legal == legal != []
    ensures exists s ::
      && s in legalSuffixes
      && (Lower(legal) == s || Lower(legal) == s + ".")
      && NoLongerMatch(legalSuffixes, value, s)
  {
    LegalIsMatchedTail(legalSuffixes, value, legal);
    FoundSpelling(legalSuffixes, value);
    var m := FindSuffix(legalSuffixes, value).value;
    assert Lower(legal) == m.suffix || Lower(legal) == m.suffix + ".";
    assert NoLongerMatch(legalSuffixes, value, m.suffix);
  }

  /** Cutting a run of trailers off a slice that is followed by whitespace
      leaves a shorter slice followed by whitespace and trailers. */
  lemma TrimmedSlice(before: string, trimmed: string, name: string, i: nat)
    requires i + |trimmed| <= |before| && trimmed == before[i..i + |trimmed|]
    requires |name| <= |trimmed| && name == trimmed[..|name|]
    requires forall j :: |name| <= j < |trimmed| ==> trimmed[j] in NameTrailers
    requires forall k :: i + |trimmed| <= k < |before| ==> IsSpace(before[k])
    ensures name == before[i..i + |name|]
    ensures forall k :: i + |name| <= k < |before| ==> IsSpace(before[k]) || before[k] in NameTrailers
  {
    forall k | i + |name| <= k < i + |trimmed| ensures before[k] in NameTrailers {
      assert before[k] == trimmed[k - i];
    }
  }

  /** The name is the text before `start` with its leading whitespace
      removed and a run of trailing whitespace, `,`, `.` and `-` removed:
      a slice of the value that starts after the leading whitespace and
      begins with a non-space character. */
  lemma NamePartSlice(value: string, start: nat)
    requires start <= |value|
    ensures var name, i := NamePart(value, start), LeadingSpace(value[..start]);
      && i + |name| <= start
      && name == value[i..i + |name|]
      && (name == [] || !IsSpace(name[0]))
      && (forall k :: 0 <= k < i ==> IsSpace(value[k]))
      && (forall k :: i + |name| <= k < start ==> IsSpace(value[k]) || value[k] in NameTrailers)
  {
    var before := value[..start];
    var trimmed := Strip(before);
    var i := LeadingSpace(before);
    var name := NamePart(value, start);
    StripIsSlice(before);
    TrimmedSlice(before, trimmed, name, i);
    assert forall k :: 0 <= k < start ==> value[k] == before[k];
  }

  /** On a match, the name is the name part of the text before the legal
      form, which ends the value. */
  lemma NameBeforeLegal(legalSuffixes: seq<string>, value: string)
    requires ValidSuffixes(legalSuffixes)
    requires ParseCompany(legalSuffixes, value).legal != []
    ensures var r := ParseCompany(legalSuffixes, value);
      |r.legal| <= |value| && r.name == NamePart(value, |value| - |r.legal|)
  {
    LegalIsMatchedTail(legalSuffixes, value, ParseCompany(legalSuffixes, value).legal);
  }

  /** The result depends only on which suffixes are in the list, not on
      their order: the list comes from a set, whose order varies from run to
      run, and sorting by length leaves equal-length suffixes in that order. */
  lemma OrderIndependent(xs: seq<string>, ys: seq<string>, value: string)
    requires ValidSuffixes(xs) && multiset(xs) == multiset(ys)
    ensures ParseCompany(xs, value) == ParseCompany(ys, value)
  {
    assert forall s :: s in xs <==> s in ys by {
      forall s ensures s in xs <==> s in ys {
        assert s in xs <==> s in multiset(xs);
        assert s in ys <==> s in multiset(ys);
      }
    }
    var mx := FindSuffix(xs, value);
    var my := FindSuffix(ys, value);
    if mx.Some? && my.Some? {
      var s, t := mx.value.suffix, my.value.suffix;
      var k :| 0 <= k < |xs| && xs[k] == s;
      var l :| 0 <= l < |xs| && xs[l] == t;
      SameLengthMatchUnique(value, s, t, mx.value.start, my.value.start);
    }
  }

  /** The value of the worked example below. */
  const AcmeValue: string := "Acme Widgets Pvt Ltd"

  lemma AcmePvtLtdMatches()
    ensures SuffixMatch(AcmeValue, "pvt ltd") == Some(13)
  {
    var v := AcmeValue;
    assert Lower("pvt ltd") == "pvt ltd";
    assert v[13..] == "Pvt Ltd";
    assert Lower("Pvt Ltd") == "pvt ltd";
    assert MatchesAt(v, "pvt ltd", 13);
    assert Lower(v[12..])[0] == ' ';
    assert !MatchesAt(v, "pvt ltd", 12);
  }

  lemma AcmePrivateLimitedMisses()
    ensures !Matches(AcmeValue, "private limited")
  {
    var v := AcmeValue;
    assert Lower("private limited")[0] == 'p';
    assert Lower(v[4..])[0] == ' ' && Lower(v[5..])[0] == 'w';
    assert SuffixMatch(v, "private limited").None?;
  }

  lemma AcmeHoldingsMisses()
    ensures !Matches(AcmeValue, "holdings")
  {
    var v := AcmeValue;
    assert Lower("holdings")[0] == 'h';
    assert Lower(v[11..])[0] == 's' && Lower(v[12..])[0] == ' ';
    assert SuffixMatch(v, "holdings").None?;
  }

  /** The base suffixes of at least 7 characters. */
  lemma LongBaseSuffixes(x: string)
    requires x in BaseLegalSuffixes && |x| >= 7
    ensures x == "pvt ltd" || x == "private limited" || x == "holdings"
  {
  }

  lemma AcmeLongerSuffixMisses(x: string)
    requires x == "private limited" || x == "holdings"
    ensures !Matches(AcmeValue, x)
  {
    AcmePrivateLimitedMisses();
    AcmeHoldingsMisses();
  }

  lemma AcmeFound()
    ensures FindSuffix(BaseLegalSuffixes, AcmeValue) == Some(Match("pvt ltd", 13))
  {
    AcmePvtLtdMatches();
    forall t | t in BaseLegalSuffixes && |t| >= 7 && t != "pvt ltd"
      ensures !Matches(AcmeValue, t)
    {
      LongBaseSuffixes(t);
      AcmeLongerSuffixMisses(t);
    }
    FindSuffixIs(BaseLegalSuffixes, AcmeValue, "pvt ltd", 13);
  }

  lemma AcmeSplit()
    ensures NamePart(AcmeValue, 13) == "Acme Widgets"
    ensures Strip(AcmeValue[13..]) == "Pvt Ltd"
  {
    assert AcmeValue[..13] == "Acme Widgets ";
    assert AcmeValue[13..] == "Pvt Ltd";
    assert LStrip("Acme Widgets ") == "Acme Widgets ";
    assert "Acme Widgets "[..12] == "Acme Widgets";
    assert RStripChars("Acme Widgets ", Whitespace) == RStripChars("Acme Widgets", Whitespace);
    assert RStripChars("Acme Widgets", Whitespace) == "Acme Widgets";
    assert RStripChars("Acme Widgets", NameTrailers) == "Acme Widgets";
    StripKeeps("Pvt Ltd");
  }

  /** With the base suffix list, "Acme Widgets Pvt Ltd" splits into
      "Acme Widgets" and "Pvt Ltd": "pvt ltd" beats the shorter "ltd". */
  lemma AcmeExample()
    ensures ParseCompany(BaseLegalSuffixes, AcmeValue) == CompanyParts("Acme Widgets", "Pvt Ltd")
  {
    AcmeFound();
    AcmeSplit();
  }
}
