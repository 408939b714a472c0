/** The column-type decision: the first category with the highest score,
    unless that score is below the 0.2 confidence threshold. */
module ColumnType {
  import opened Reference
  import opened Scoring
  import opened ScoringLemmas

  /** Below this winning score the column is declared Other. */
  const ConfidenceThreshold: real := 0.2

  /** `max(categories, key=key)`: scans left to right and replaces the
      current best only on a strictly greater key, so the first of several
      equal maxima wins. */
  function FirstMax(cats: seq<Category>, key: Category -> real): (r: Category)
    requires cats != []
    ensures r in cats
    ensures forall d :: d in cats ==> key(d) <= key(r)
    ensures exists k :: 0 <= k < |cats| && cats[k] == r && forall j :: 0 <= j < k ==> key(cats[j]) < key(r)
    decreases |cats|
  {
    if |cats| == 1 then cats[0]
    else
      var init := cats[..|cats| - 1];
      var best := FirstMax(init, key);
      assert forall d :: d in init ==> d in cats;
      assert forall j :: 0 <= j < |init| ==> init[j] == cats[j];
      if key(cats[|cats| - 1]) > key(best) then cats[|cats| - 1] else best
  }

  /** The score of each category, as `stats.get` gives it. */
  function ScoreKey(s: ColumnStats): Category -> real
    requires s.sampleSize > 0
  {
    c => s.Score(c)
  }

  /** `get_column_type` on the scores: the winner over the dict's keys, in
      their order, or Other when the winner's score is below the threshold. */
  function ChooseType(s: ColumnStats): Category
    requires s.sampleSize > 0 && s.keys != []
  {
    var best := FirstMax(s.keys, ScoreKey(s));
    if s.Score(best) < ConfidenceThreshold then Other else best
  }

  /** `get_column_type`. */
  method GetColumnType(ctx: Context, column: seq<Option<string>>) returns (c: Category)
    ensures var s := ColumnScores(ctx, column);
      c == FirstMax(s.keys, ScoreKey(s)) && ConfidenceThreshold <= s.Score(c)
  {
    var stats := GetColumnStats(ctx, column);
    ThresholdNeverFires(ctx, column);
    var best := FirstMax(stats.keys, ScoreKey(stats));
    if stats.Score(best) < ConfidenceThreshold {
      c := Other;
    } else {
      c := best;
    }
  }

  /** Whatever the column, the winner scores at least 0.2: the scores sum
      to at least 1 over five categories. So the fallback to Other never
      changes the answer. */
  lemma ThresholdNeverFires(ctx: Context, column: seq<Option<string>>)
    ensures var s := ColumnScores(ctx, column);
      var best := FirstMax(s.keys, ScoreKey(s));
      ConfidenceThreshold <= s.Score(best) && ChooseType(s) == best
  {
    var s := ColumnScores(ctx, column);
    var key := ScoreKey(s);
    var best := FirstMax(s.keys, key);
    ScoresBounded(ctx, column);
    ScoreTotal(s);
    assert PhoneNumber in s.keys && Date in s.keys && Country in s.keys;
    assert CompanyName in s.keys && Other in s.keys;
    assert key(PhoneNumber) <= key(best) && key(Date) <= key(best) && key(Country) <= key(best);
    assert key(CompanyName) <= key(best) && key(Other) <= key(best);
  }

  /** When one category scores strictly more than every other, `max` picks
      it, whatever the order it visits them in. */
  lemma UniqueMax(cats: seq<Category>, key: Category -> real, c: Category)
    requires c in cats
    requires forall d :: d != c ==> key(d) < key(c)
    ensures FirstMax(cats, key) == c
  {
  }

  /** An empty or all-missing column is typed Other. */
  lemma EmptyColumnIsOther(ctx: Context, column: seq<Option<string>>)
    requires forall i :: 0 <= i < |column| ==> column[i].None?
    ensures ChooseType(ColumnScores(ctx, column)) == Other
  {
    AllMissingIsOther(ctx, column);
    var key := ScoreKey(ColumnScores(ctx, column));
    UniqueMax(EmptyKeyOrder, key, Other);
  }

  /** A category with one point per sampled cell wins over categories
      with at most half a point per cell. */
  lemma MajorityWins(s: ColumnStats, c: Category)
    requires s.sampleSize > 0 && s.keys == KeyOrder
    requires s.points.Of(c) == s.sampleSize as real
    requires forall d :: d != c ==> 0.0 <= s.points.Of(d) <= 0.5 * s.sampleSize as real
    ensures ChooseType(s) == c
  {
    var key := ScoreKey(s);
    var n := s.sampleSize as real;
    DivideBounds(s.points.Of(c), n, 1.0, 1.0);
    forall d | d != c ensures key(d) < key(c) {
      DivideBounds(s.points.Of(d), n, 0.0, 0.5);
    }
    UniqueMax(KeyOrder, key, c);
  }

  /** When the cascade sends every sampled value to the same category `c`,
      the column is typed `c`. For Other this holds although title-case
      values also earn Company Name half a point each: Other scores 1 and
      Company Name at most 0.5. */
  lemma UniformColumnType(ctx: Context, column: seq<Option<string>>, c: Category)
    requires DropMissing(column) != []
    requires forall x :: x in Sample(DropMissing(column)) ==> ClassifyCell(ctx, x) == c
    ensures ChooseType(ColumnScores(ctx, column)) == c
  {
    var s := ColumnScores(ctx, column);
    UniformColumn(ctx, column, c);
    ScoresBounded(ctx, column);
    assert s.keys == KeyOrder;
    MajorityWins(s, c);
  }
}
