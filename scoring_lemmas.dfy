/** What the column scorer guarantees: the empty-column default, the
    100-value sampling cap, the score bounds, the digit requirement of the
    Date and Phone Number categories and the double credit of the
    title-case heuristic. */
module ScoringLemmas {
  import opened Text
  import opened Reference
  import opened Scoring

  /** Every score `points.Of(c) / sampleSize` lies in [0, 1]. */
  predicate InUnitRange(s: ColumnStats) {
    var p, n := s.points, s.sampleSize as real;
    0.0 <= p.phone <= n && 0.0 <= p.date <= n && 0.0 <= p.country <= n &&
    0.0 <= p.company <= n && 0.0 <= p.other <= n
  }

  // ---- one cell ----

  /** A credit adds one point to its category, half a point to Company Name
      for the heuristic, and nothing elsewhere. */
  lemma PointsSpec(cr: Credit, c: Category)
    ensures Points(cr).Of(cr.full) == 1.0
    ensures c != cr.full && c != CompanyName ==> Points(cr).Of(c) == 0.0
    ensures cr.full != CompanyName ==> Points(cr).company == if cr.half then 0.5 else 0.0
  {
  }

  /** A cell gives exactly one full point, to the category the cascade
      picks; the title-case heuristic adds half a point for Company Name on
      top of the full point for Other. */
  lemma CellPoints(ctx: Context, item: string)
    ensures var p := Points(Assess(ctx, item));
      && p.Of(ClassifyCell(ctx, item)) == 1.0
      && (HalfPoint(ctx, item) ==> p == Scores(0.0, 0.0, 0.0, 0.5, 1.0))
      && p.Sum() == (if HalfPoint(ctx, item) then 1.5 else 1.0)
  {
  }

  /** A value with no digit is never a Date nor a Phone Number: every regex
      of both tables needs a digit, the date parser is only tried on values
      with a digit and the phone parser on values with at least 7. */
  lemma NoDigitNoDateOrPhone(ctx: Context, item: string)
    requires Valid(ctx)
    requires !ContainsDigit(Strip(item))
    ensures ClassifyCell(ctx, item) != Date && ClassifyCell(ctx, item) != PhoneNumber
  {
    var v := Strip(item);
    assert !AnyMatch(ctx.datePatterns, v);
    assert !AnyMatch(ctx.phonePatterns, v);
  }

  /** "Acme Widgets" has no whitespace to strip. */
  lemma AcmeWidgetsStripped()
    ensures Strip("Acme Widgets") == "Acme Widgets"
  {
    var v := "Acme Widgets";
    assert v[0] == 'A' && v[|v| - 1] == 's';
    StripKeeps(v);
  }

  /** "Acme Widgets" holds no digit. */
  lemma AcmeWidgetsNoDigit()
    ensures !ContainsDigit("Acme Widgets")
  {
    var v := "Acme Widgets";
    forall i | 0 <= i < |v| ensures !IsDigit(v[i]) {
      assert IsUpper(v[i]) || IsLower(v[i]) || v[i] == ' ';
    }
  }

  /** "Acme Widgets" has two words. */
  lemma AcmeWidgetsTwoWords()
    ensures WordCount("Acme Widgets") > 1
  {
    var v := "Acme Widgets";
    assert v[0] == 'A' && v[4] == ' ' && v[5] == 'W';
    TwoWordsFrom(v, 0, 4, 5);
  }

  /** "Acme Widgets" is title-cased: each word starts with the only
      upper-case letter it has. */
  lemma AcmeWidgetsTitle()
    ensures IsTitle("Acme Widgets")
  {
    assert TitleScan("s", true);
    assert TitleScan("ts", true);
    assert TitleScan("ets", true);
    assert TitleScan("gets", true);
    assert TitleScan("dgets", true);
    assert TitleScan("idgets", true);
    assert TitleScan("Widgets", false);
    assert TitleScan(" Widgets", true);
    assert TitleScan("e Widgets", true);
    assert TitleScan("me Widgets", true);
    assert TitleScan("cme Widgets", true);
    assert TitleScan("Acme Widgets", false);
    assert IsUpper("Acme Widgets"[0]);
  }

  /** "Acme Widgets" passes the title-case test: no digit, title case and
      two words. */
  lemma AcmeWidgetsTitleCase()
    ensures Strip("Acme Widgets") == "Acme Widgets"
    ensures TitleCaseSignal("Acme Widgets")
  {
    AcmeWidgetsStripped();
    AcmeWidgetsNoDigit();
    AcmeWidgetsTitle();
    AcmeWidgetsTwoWords();
  }

  /** The title-case heuristic fires: with no pattern, parser, country or
      suffix recognising it, "Acme Widgets" falls to Other and earns the
      half point for Company Name. */
  lemma TitleCaseExample()
    ensures HalfPoint(Context({}, [], [], [], _ => false, _ => false), "Acme Widgets")
  {
    AcmeWidgetsTitleCase();
  }

  // ---- a run of credits ----

  lemma PlusOf(a: Scores, b: Scores, c: Category)
    ensures a.Plus(b).Of(c) == a.Of(c) + b.Of(c)
  {
  }

  lemma InitWellFormed(credits: seq<Credit>)
    requires credits != [] && WellFormed(credits)
    ensures WellFormed(credits[..|credits| - 1])
  {
    var init := credits[..|credits| - 1];
    forall i | 0 <= i < |init| ensures init[i] == credits[i] { }
  }

  /** Each accumulator after a run lies between 0 and the run's length. */
  lemma {:induction false} TallyRange(credits: seq<Credit>)
    requires WellFormed(credits)
    ensures var t, n := Tally(credits), |credits| as real;
      0.0 <= t.phone <= n && 0.0 <= t.date <= n && 0.0 <= t.country <= n &&
      0.0 <= t.company <= n && 0.0 <= t.other <= n
  {
    if credits != [] {
      InitWellFormed(credits);
      TallyRange(credits[..|credits| - 1]);
    }
  }

  /** The accumulators after a run add up to one full point per cell plus
      half a point per title-case cell. */
  lemma {:induction false} TallySum(credits: seq<Credit>)
    requires WellFormed(credits)
    ensures Tally(credits).Sum() == |credits| as real + 0.5 * HalfPointCount(credits) as real
  {
    if credits != [] {
      var init, last := credits[..|credits| - 1], credits[|credits| - 1];
      InitWellFormed(credits);
      TallySum(init);
      assert Points(last).Sum() == if last.half then 1.5 else 1.0;
    }
  }

  /** A category scores above zero only if some credit of the run is for it
      (or, for Company Name, carries the half point). */
  lemma {:induction false} TallyWitness(credits: seq<Credit>, c: Category)
    requires Tally(credits).Of(c) > 0.0
    ensures exists i :: 0 <= i < |credits| && (credits[i].full == c || (c == CompanyName && credits[i].half))
  {
    var last := |credits| - 1;
    if !(credits[last].full == c || (c == CompanyName && credits[last].half)) {
      TallyWitness(credits[..last], c);
      var i :| 0 <= i < last && (credits[..last][i].full == c || (c == CompanyName && credits[..last][i].half));
      assert credits[..last][i] == credits[i];
    }
  }

  /** When every credit of the run is a full point for `c` (and, unless `c`
      is Other, none carries the half point), `c` has one point per cell
      and every other category none. */
  lemma {:induction false} TallyUniform(credits: seq<Credit>, c: Category)
    requires WellFormed(credits)
    requires forall i :: 0 <= i < |credits| ==> credits[i].full == c
    ensures Tally(credits).Of(c) == |credits| as real
    ensures c != Other ==> forall d :: d != c ==> Tally(credits).Of(d) == 0.0
    ensures c == Other ==> forall d :: d != Other && d != CompanyName ==> Tally(credits).Of(d) == 0.0
  {
    if credits != [] {
      var last := |credits| - 1;
      assert forall i :: 0 <= i < last ==> credits[..last][i] == credits[i];
      InitWellFormed(credits);
      TallyUniform(credits[..last], c);
      assert credits[last].full == c;
      assert c != Other ==> !credits[last].half;
      PlusOf(Tally(credits[..last]), Points(credits[last]), c);
      forall d | d != c
        ensures c != Other || d != CompanyName ==> Tally(credits).Of(d) == 0.0
      {
        PlusOf(Tally(credits[..last]), Points(credits[last]), d);
      }
    }
  }

  // ---- a column ----

  /** Every score of every column lies in [0, 1], and the scores sum to
      between 1 and 1.5. */
  lemma ScoresBounded(ctx: Context, column: seq<Option<string>>)
    ensures InUnitRange(ColumnScores(ctx, column))
    ensures var s := ColumnScores(ctx, column);
      s.sampleSize as real <= s.points.Sum() <= 1.5 * s.sampleSize as real
  {
    var clean := DropMissing(column);
    if clean != [] {
      var credits := Credits(ctx, Sample(clean));
      TallyRange(credits);
      TallySum(credits);
    }
  }

  /** For a column with a non-missing value the scores sum to exactly
      (n + h/2) / n, that is 1 + h / 2n, where n is the sample size and h
      the number of sampled cells that earned the title-case half point. */
  lemma ScoreSum(ctx: Context, column: seq<Option<string>>)
    requires DropMissing(column) != []
    ensures var sample := Sample(DropMissing(column));
      var s := ColumnScores(ctx, column);
      s.sampleSize == |sample| &&
      s.points.Sum() == |sample| as real + 0.5 * HalfPointCount(Credits(ctx, sample)) as real
  {
    TallySum(Credits(ctx, Sample(DropMissing(column))));
  }

  /** `lo <= p / n <= hi` follows from `lo * n <= p <= hi * n`. */
  lemma DivideBounds(p: real, n: real, lo: real, hi: real)
    requires 0.0 < n && lo * n <= p <= hi * n
    ensures lo <= p / n <= hi
  {
    var q := p / n;
    assert q * n == p;
  }

  /** Dividing each of five numerators by `n` divides their sum by `n`. */
  lemma DivideSum(a: real, b: real, c: real, d: real, e: real, n: real)
    requires 0.0 < n
    ensures a / n + b / n + c / n + d / n + e / n == (a + b + c + d + e) / n
  {
    var qa, qb, qc, qd, qe := a / n, b / n, c / n, d / n, e / n;
    assert qa * n == a && qb * n == b && qc * n == c && qd * n == d && qe * n == e;
    assert (qa + qb + qc + qd + qe) * n == a + b + c + d + e;
  }

  /** Each divided score, the value the source returns, lies in [0, 1]. */
  lemma ScoreInUnit(s: ColumnStats, c: Category)
    requires s.sampleSize > 0 && InUnitRange(s)
    ensures 0.0 <= s.Score(c) <= 1.0
  {
    DivideBounds(s.points.Of(c), s.sampleSize as real, 0.0, 1.0);
  }

  /** The divided scores sum to between 1 and 1.5. */
  lemma ScoreTotal(s: ColumnStats)
    requires s.sampleSize > 0
    requires s.sampleSize as real <= s.points.Sum() <= 1.5 * s.sampleSize as real
    ensures 1.0 <= s.Score(PhoneNumber) + s.Score(Date) + s.Score(Country) +
                   s.Score(CompanyName) + s.Score(Other) <= 1.5
  {
    var n, p := s.sampleSize as real, s.points;
    DivideSum(p.phone, p.date, p.country, p.company, p.other, n);
    DivideBounds(p.Sum(), n, 1.0, 1.5);
  }

  lemma {:induction false} DropMissingAllNone(column: seq<Option<string>>)
    requires forall i :: 0 <= i < |column| ==> column[i].None?
    ensures DropMissing(column) == []
  {
    if column != [] {
      DropMissingAllNone(column[1..]);
    }
  }

  /** Dropping missing cells from a column with none missing gives back
      its values, in order. */
  lemma {:induction false} DropMissingKeepsPresent(xs: seq<string>)
    ensures DropMissing(seq(|xs|, i requires 0 <= i < |xs| => Some(xs[i]))) == xs
  {
    if xs != [] {
      var column := seq(|xs|, i requires 0 <= i < |xs| => Some(xs[i]));
      var rest := xs[1..];
      DropMissingKeepsPresent(rest);
      assert column[1..] == seq(|rest|, i requires 0 <= i < |rest| => Some(rest[i]));
      assert column[0] == Some(xs[0]);
      assert xs == [xs[0]] + rest;
    }
  }

  /** An empty or all-missing column scores Other = 1 and every other
      category 0. */
  lemma AllMissingIsOther(ctx: Context, column: seq<Option<string>>)
    requires forall i :: 0 <= i < |column| ==> column[i].None?
    ensures ColumnScores(ctx, column) == ColumnStats(Scores(0.0, 0.0, 0.0, 0.0, 1.0), 1, EmptyKeyOrder)
  {
    DropMissingAllNone(column);
  }

  lemma {:induction false} DropMissingConcat(a: seq<Option<string>>, b: seq<Option<string>>)
    ensures DropMissing(a + b) == DropMissing(a) + DropMissing(b)
  {
    if a != [] {
      assert (a + b)[0] == a[0];
      assert (a + b)[1..] == a[1..] + b;
      DropMissingConcat(a[1..], b);
      match a[0]
      case None =>
        assert DropMissing(a + b) == DropMissing(a[1..] + b);
        assert DropMissing(a) == DropMissing(a[1..]);
      case Some(v) =>
        assert DropMissing(a + b) == [v] + DropMissing(a[1..] + b);
        assert DropMissing(a) == [v] + DropMissing(a[1..]);
        assert [v] + (DropMissing(a[1..]) + DropMissing(b)) == ([v] + DropMissing(a[1..])) + DropMissing(b);
    } else {
      assert a + b == b;
    }
  }

  /** Only the first 100 non-missing values count: once `head` holds 100 of
      them, whatever follows leaves the scores unchanged. */
  lemma OnlySampleCounts(ctx: Context, head: seq<Option<string>>, tail: seq<Option<string>>)
    requires |DropMissing(head)| >= SampleSize
    ensures ColumnScores(ctx, head + tail) == ColumnScores(ctx, head)
  {
    var h := DropMissing(head);
    DropMissingConcat(head, tail);
    assert (h + DropMissing(tail))[..SampleSize] == h[..SampleSize];
  }

  /** A column whose sampled values hold no digit scores 0 for Date and
      for Phone Number. */
  lemma NoDigitColumn(ctx: Context, column: seq<Option<string>>)
    requires Valid(ctx)
    requires forall x :: x in Sample(DropMissing(column)) ==> !ContainsDigit(Strip(x))
    ensures ColumnScores(ctx, column).points.date == 0.0 && ColumnScores(ctx, column).points.phone == 0.0
  {
    var clean := DropMissing(column);
    if clean != [] {
      var sample := Sample(clean);
      var credits := Credits(ctx, sample);
      var t := Tally(credits);
      forall c | c == Date || c == PhoneNumber
        ensures t.Of(c) == 0.0
      {
        TallyRange(credits);
        TallySum(credits);
        if t.Of(c) > 0.0 {
          TallyWitness(credits, c);
          var i :| 0 <= i < |sample| && credits[i].full == c;
          assert sample[i] in sample;
          NoDigitNoDateOrPhone(ctx, sample[i]);
        }
      }
      assert t.date == t.Of(Date) && t.phone == t.Of(PhoneNumber);
    }
  }

  /** A cell credited to Country is, trimmed and lower-cased, in the
      country set. */
  lemma CountryCell(ctx: Context, item: string)
    requires Assess(ctx, item).full == Country
    ensures Lower(Strip(item)) in ctx.countries
  {
  }

  /** A Country score above zero means some sampled value, trimmed and
      lower-cased, is in the country set. */
  lemma CountryWitness(ctx: Context, column: seq<Option<string>>)
    requires ColumnScores(ctx, column).points.country > 0.0
    ensures exists x :: x in Sample(DropMissing(column)) && Lower(Strip(x)) in ctx.countries
  {
    var sample := Sample(DropMissing(column));
    var credits := Credits(ctx, sample);
    assert DropMissing(column) != [];
    assert Tally(credits).Of(Country) > 0.0;
    TallyWitness(credits, Country);
    var i :| 0 <= i < |sample| && credits[i].full == Country;
    var x := sample[i];
    CountryCell(ctx, x);
    assert x in sample;
  }

  /** A cell credited to Company Name, fully or by half, holds a legal
      suffix or passes the title-case heuristic. */
  lemma CompanyCell(ctx: Context, item: string)
    requires Assess(ctx, item).full == CompanyName || Assess(ctx, item).half
    ensures SuffixSignal(ctx, Strip(item)) || TitleCaseSignal(Strip(item))
  {
    CompanyValue(ctx, Strip(item));
  }

  lemma CompanyValue(ctx: Context, v: string)
    requires AssessValue(ctx, v).full == CompanyName || AssessValue(ctx, v).half
    ensures SuffixSignal(ctx, v) || TitleCaseSignal(v)
  {
  }

  /** A Company Name score above zero means some sampled value holds a
      legal suffix or passes the title-case heuristic. */
  lemma CompanyWitness(ctx: Context, column: seq<Option<string>>)
    requires ColumnScores(ctx, column).points.company > 0.0
    ensures exists x ::
      x in Sample(DropMissing(column)) && (SuffixSignal(ctx, Strip(x)) || TitleCaseSignal(Strip(x)))
  {
    var sample := Sample(DropMissing(column));
    var credits := Credits(ctx, sample);
    assert DropMissing(column) != [];
    assert Tally(credits).Of(CompanyName) > 0.0;
    TallyWitness(credits, CompanyName);
    var i :| 0 <= i < |sample| && (credits[i].full == CompanyName || credits[i].half);
    var x := sample[i];
    CompanyCell(ctx, x);
    assert x in sample;
  }

  /** When the cascade sends every sampled value to the same category `c`,
      `c` scores 1 and, unless `c` is Other, every other category 0. */
  lemma UniformColumn(ctx: Context, column: seq<Option<string>>, c: Category)
    requires DropMissing(column) != []
    requires forall x :: x in Sample(DropMissing(column)) ==> ClassifyCell(ctx, x) == c
    ensures var s := ColumnScores(ctx, column); s.points.Of(c) == s.sampleSize as real
    ensures c != Other ==> forall d :: d != c ==> ColumnScores(ctx, column).points.Of(d) == 0.0
    ensures c == Other ==> var s := ColumnScores(ctx, column);
      && (forall d :: d != Other && d != CompanyName ==> s.points.Of(d) == 0.0)
      && s.points.company <= 0.5 * s.sampleSize as real
  {
    var sample := Sample(DropMissing(column));
    var credits := Credits(ctx, sample);
    forall i | 0 <= i < |sample| ensures credits[i].full == c {
      assert sample[i] in sample;
    }
    TallyUniform(credits, c);
    if c == Other {
      TallyRange(credits);
      TallySum(credits);
    }
  }
}
