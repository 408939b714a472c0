/** The column scorer: each sampled cell goes through the cascade
    Date > Phone Number > Country > Company Name > Other, the credits are
    accumulated per category and divided by the sample size. */
module Scoring {
  import opened Text
  import opened Reference

  datatype Category = PhoneNumber | Date | Country | CompanyName | Other

  /** At most this many non-missing values of a column are looked at. */
  const SampleSize: nat := 100

  /** One real per category, exact (no floating point). */
  datatype Scores = Scores(phone: real, date: real, country: real, company: real, other: real)
  {
    function Of(c: Category): real {
      match c
      case PhoneNumber => phone
      case Date => date
      case Country => country
      case CompanyName => company
      case Other => other
    }

    function Sum(): real {
      phone + date + country + company + other
    }

    function Plus(s: Scores): Scores {
      Scores(phone + s.phone, date + s.date, country + s.country, company + s.company, other + s.other)
    }
  }

  /** The key order of the dict of scores built for a column with values. */
  const KeyOrder: seq<Category> := [PhoneNumber, Date, Country, CompanyName, Other]

  /** The key order of the dict literal returned for a column with no value. */
  const EmptyKeyOrder: seq<Category> := [PhoneNumber, CompanyName, Country, Date, Other]

  /** The result of `get_column_stats`: the score of category `c` is the
      fraction `points.Of(c) / sampleSize`, and `keys` is the order of the
      dict's keys. Numerator and denominator are kept apart so that every
      comparison of scores stays exact. */
  datatype ColumnStats = ColumnStats(points: Scores, sampleSize: nat, keys: seq<Category>)
  {
    /** `points.Of(c) / sampleSize`, the value the source stores. */
    function Score(c: Category): real
      requires sampleSize > 0
    {
      points.Of(c) / sampleSize as real
    }
  }

  const NoScores := Scores(0.0, 0.0, 0.0, 0.0, 0.0)

  /** The scores of a column with no non-missing value: Other = 1, every
      other category 0. */
  const EmptyColumnStats := ColumnStats(Scores(0.0, 0.0, 0.0, 0.0, 1.0), 1, EmptyKeyOrder)

  // ---- the cascade, stated over the stripped value `v` ----

  predicate AnyMatch(patterns: seq<Matcher>, v: string) {
    exists i :: 0 <= i < |patterns| && patterns[i](v)
  }

  /** Some date regex matches, or (longer than 5 characters and holding a
      digit) the date parser accepts the value. */
  predicate DateSignal(ctx: Context, v: string) {
    AnyMatch(ctx.datePatterns, v) || (|v| > 5 && ContainsDigit(v) && ctx.parsesAsDate(v))
  }

  /** Some phone regex matches, or (at least 7 digits) the phone parser
      takes it for a possible number. */
  predicate PhoneSignal(ctx: Context, v: string) {
    AnyMatch(ctx.phonePatterns, v) || (DigitCount(v) >= 7 && ctx.possiblePhone(v))
  }

  predicate CountrySignal(ctx: Context, v: string) {
    Lower(v) in ctx.countries
  }

  /** `any(suffix in lowered for suffix in suffixes)`. */
  predicate AnySuffixIn(suffixes: seq<string>, lowered: string) {
    exists x :: x in suffixes && IsSubstring(x, lowered)
  }

  /** Some legal suffix occurs anywhere in the lower-cased value. */
  predicate SuffixSignal(ctx: Context, v: string) {
    AnySuffixIn(ctx.legalSuffixes, Lower(v))
  }

  /** The "looks like a company" heuristic: no digit, title case, and more
      than one word. */
  predicate TitleCaseSignal(v: string) {
    !ContainsDigit(v) && IsTitle(v) && WordCount(v) > 1
  }

  /** The category that receives the full point of the stripped value `v`. */
  function Classify(ctx: Context, v: string): Category {
    if DateSignal(ctx, v) then Date
    else if PhoneSignal(ctx, v) then PhoneNumber
    else if CountrySignal(ctx, v) then Country
    else if SuffixSignal(ctx, v) then CompanyName
    else Other
  }

  /** The category that receives the cell's full point. */
  function ClassifyCell(ctx: Context, item: string): Category {
    Classify(ctx, Strip(item))
  }

  /** Whether the cell also earns the half point for Company Name: the
      heuristic branch, reached only when nothing above matched. */
  predicate HalfPoint(ctx: Context, item: string) {
    ClassifyCell(ctx, item) == Other && TitleCaseSignal(Strip(item))
  }

  /** What one cell earns: the category of its full point, and whether it
      also earned the half point for Company Name. */
  datatype Credit = Credit(full: Category, half: bool)

  /** The credit of the stripped value `v`. */
  function AssessValue(ctx: Context, v: string): (r: Credit)
    ensures r.half ==> r.full == Other
  {
    var c := Classify(ctx, v);
    Credit(c, c == Other && TitleCaseSignal(v))
  }

  function Assess(ctx: Context, item: string): (r: Credit)
    ensures r.half ==> r.full == Other
    ensures r == Credit(ClassifyCell(ctx, item), HalfPoint(ctx, item))
  {
    AssessValue(ctx, Strip(item))
  }

  /** What a credit adds to the accumulators. */
  function Points(cr: Credit): Scores {
    Scores(
      if cr.full == PhoneNumber then 1.0 else 0.0,
      if cr.full == Date then 1.0 else 0.0,
      if cr.full == Country then 1.0 else 0.0,
      if cr.full == CompanyName then 1.0 else if cr.half then 0.5 else 0.0,
      if cr.full == Other then 1.0 else 0.0)
  }

  /** Credits as `Assess` produces them: the half point only on top of a
      full point for Other. */
  predicate WellFormed(credits: seq<Credit>) {
    forall i :: 0 <= i < |credits| ==> (credits[i].half ==> credits[i].full == Other)
  }

  /** The credits of a run of cells, in order. */
  function Credits(ctx: Context, xs: seq<string>): (r: seq<Credit>)
    ensures |r| == |xs|
    ensures forall i :: 0 <= i < |xs| ==> r[i] == Assess(ctx, xs[i])
    ensures WellFormed(r)
  {
    seq(|xs|, i requires 0 <= i < |xs| => Assess(ctx, xs[i]))
  }

  /** The accumulators after a run of credits, in order. */
  function Tally(credits: seq<Credit>): Scores {
    if credits == [] then NoScores
    else Tally(credits[..|credits| - 1]).Plus(Points(credits[|credits| - 1]))
  }

  /** How many credits carry the half point. */
  function HalfPointCount(credits: seq<Credit>): (h: nat)
    ensures h <= |credits|
  {
    if credits == [] then 0
    else HalfPointCount(credits[..|credits| - 1]) + if credits[|credits| - 1].half then 1 else 0
  }

  /** `series.dropna()`: the non-missing values, in order. */
  function DropMissing(column: seq<Option<string>>): (r: seq<string>)
    ensures |r| <= |column|
  {
    if column == [] then []
    else
      var rest := DropMissing(column[1..]);
      match column[0]
      case None => rest
      case Some(v) => [v] + rest
  }

  /** `head(100)`. */
  function Sample(values: seq<string>): (r: seq<string>)
    ensures |r| == if |values| < SampleSize then |values| else SampleSize
    ensures r == values[..|r|]
  {
    if |values| < SampleSize then values else values[..SampleSize]
  }

  /** The specification of `get_column_stats`. */
  function ColumnScores(ctx: Context, column: seq<Option<string>>): (s: ColumnStats)
    ensures s.sampleSize > 0
    ensures s.keys == KeyOrder || s.keys == EmptyKeyOrder
  {
    var clean := DropMissing(column);
    if clean == [] then EmptyColumnStats
    else
      var sample := Sample(clean);
      ColumnStats(Tally(Credits(ctx, sample)), |sample|, KeyOrder)
  }

  // ---- the imperative scorer ----

  /** The inner `for pattern in ...: if re.search(...): ... break` loop. */
  method SearchPatterns(patterns: seq<Matcher>, v: string) returns (found: bool)
    ensures found <==> AnyMatch(patterns, v)
  {
    found := false;
    var k := 0;
    while k < |patterns|
      invariant 0 <= k <= |patterns|
      invariant !found ==> forall j :: 0 <= j < k ==> !patterns[j](v)
      invariant found ==> AnyMatch(patterns, v)
    {
      if patterns[k](v) {
        found := true;
        break;
      }
      k := k + 1;
    }
  }

  /** Step A of the cascade: the date regexes first, then (longer than 5
      characters and holding a digit) the date parser. */
  method CheckDate(ctx: Context, v: string) returns (matched: bool)
    ensures matched <==> DateSignal(ctx, v)
  {
    matched := SearchPatterns(ctx.datePatterns, v);
    if !matched && |v| > 5 && ContainsDigit(v) {
      matched := ctx.parsesAsDate(v);
    }
  }

  /** Step B of the cascade: the phone regexes first, then (at least 7
      digits) the phone parser. */
  method CheckPhone(ctx: Context, v: string) returns (matched: bool)
    ensures matched <==> PhoneSignal(ctx, v)
  {
    matched := SearchPatterns(ctx.phonePatterns, v);
    if !matched {
      var digitCount := DigitCount(v);
      if digitCount >= 7 {
        matched := ctx.possiblePhone(v);
      }
    }
  }

  /** Steps A and B of the cascade on the stripped value `v`: Date, then
      Phone Number, setting `matched` when one of them credits a point. */
  method CreditDateOrPhone(ctx: Context, v: string, scores: Scores) returns (updated: Scores, matched: bool)
    ensures matched <==> DateSignal(ctx, v) || PhoneSignal(ctx, v)
    ensures matched ==> updated == scores.Plus(Points(AssessValue(ctx, v)))
    ensures !matched ==> updated == scores
  {
    matched := false;
    updated := scores;

    // A. Date
    var isDate := CheckDate(ctx, v);
    if isDate {
      updated := updated.(date := updated.date + 1.0);
      matched := true;
    }

    // B. Phone Number
    if !matched {
      var isPhone := CheckPhone(ctx, v);
      if isPhone {
        updated := updated.(phone := updated.phone + 1.0);
        matched := true;
      }
    }
  }

  /** Steps C to E of the cascade on the stripped value `v` and its
      lower-cased form, for a value neither step A nor step B credited. */
  method CreditRest(ctx: Context, v: string, lowered: string, scores: Scores) returns (updated: Scores)
    requires lowered == Lower(v)
    requires !DateSignal(ctx, v) && !PhoneSignal(ctx, v)
    ensures updated == scores.Plus(Points(AssessValue(ctx, v)))
  {
    var matched := false;
    updated := scores;

    // C. Country
    if !matched && lowered in ctx.countries {
      updated := updated.(country := updated.country + 1.0);
      matched := true;
    }

    // D. Company Name: a suffix anywhere, else the half-point heuristic,
    // which leaves `matched` unset
    if !matched {
      if AnySuffixIn(ctx.legalSuffixes, lowered) {
        updated := updated.(company := updated.company + 1.0);
        matched := true;
      } else if TitleCaseSignal(v) {
        updated := updated.(company := updated.company + 0.5);
      }
    }

    // E. Other
    if !matched {
      updated := updated.(other := updated.other + 1.0);
    }
  }

  /** The loop body of `get_column_stats`: the cascade run step by step with
      a `matched` flag, crediting the accumulators as it goes. */
  method CreditCell(ctx: Context, item: string, scores: Scores) returns (updated: Scores)
    ensures updated == scores.Plus(Points(Assess(ctx, item)))
  {
    var cleanItem := Strip(item);
    var lowerItem := Lower(cleanItem);
    var matched;
    updated, matched := CreditDateOrPhone(ctx, cleanItem, scores);
    if !matched {
      updated := CreditRest(ctx, cleanItem, lowerItem, updated);
    }
  }

  /** `get_column_stats`. */
  method GetColumnStats(ctx: Context, column: seq<Option<string>>) returns (stats: ColumnStats)
    ensures stats == ColumnScores(ctx, column)
  {
    var clean := DropMissing(column);
    if |clean| == 0 {
      return EmptyColumnStats;
    }
    var sample := Sample(clean);
    ghost var credits := Credits(ctx, sample);
    var acc := NoScores;
    for i := 0 to |sample|
      invariant acc == Tally(credits[..i])
    {
      assert credits[..i + 1][..i] == credits[..i];
      acc := CreditCell(ctx, sample[i], acc);
    }
    assert credits[..|sample|] == credits;
    stats := ColumnStats(acc, |sample|, KeyOrder);
  }
}
