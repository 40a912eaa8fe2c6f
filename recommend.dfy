/** The suggested number of new words per day (src/lib/reco/recommendWordsPerDay.ts):
    a base per horizon scaled by a style factor and a level factor, rounded
    and clamped to [3, 30]. */
module Recommend {
  import opened Seqs
  import opened Numbers
  import Placement

  /** An entry of the per-horizon base table. */
  datatype Base = Base(min: int, max: int, suggested: int)

  datatype Range = Range(min: int, max: int)

  datatype Reco = Reco(min: int, max: int, suggested: int, range: Range)

  /** The base of a horizon, or `{6, 10, 8}` for one the table lacks. */
  function BaseFor(table: map<int, Base>, horizonDays: int): Base
  {
    if horizonDays in table then table[horizonDays] else Base(6, 10, 8)
  }

  /** Professional 0.9, academic 0.85, any other style 1. */
  function StyleFactor(style: string): real
  {
    if style == "academic" then 0.85
    else if style == "professional" then 0.9
    else 1.0
  }

  /** A2 0.85, B2 1.05, otherwise 1; `None` is a missing placement or a
      placement without a level. */
  function LevelFactor(level: Option<Placement.Level>): real
  {
    match level
    case Some(A2) => 0.85
    case Some(B2) => 1.05
    case _ => 1.0
  }

  /** `n * fStyle * fLevel`. */
  function Scaled(n: int, fStyle: real, fLevel: real): real
  {
    n as real * fStyle * fLevel
  }

  /** `clamp(n * fStyle * fLevel)`. */
  function Apply(n: int, fStyle: real, fLevel: real): (r: int)
    ensures 3 <= r <= 30
    ensures 3 <= Round(Scaled(n, fStyle, fLevel)) <= 30 ==> r == Round(Scaled(n, fStyle, fLevel))
  {
    Clamp(Round(Scaled(n, fStyle, fLevel)), 3, 30)
  }

  /** Scaling by positive style and level factors keeps the order of two bases. */
  lemma ApplyMonotone(m: int, n: int, fs: real, fl: real)
    requires m <= n && fs > 0.0 && fl > 0.0
    ensures Apply(m, fs, fl) <= Apply(n, fs, fl)
  {
    ScaledMonotone(m, n, fs, fl);
    ClampRoundMonotone(Scaled(m, fs, fl), Scaled(n, fs, fl));
  }

  lemma ScaledMonotone(m: int, n: int, fs: real, fl: real)
    requires m <= n && fs > 0.0 && fl > 0.0
    ensures Scaled(m, fs, fl) <= Scaled(n, fs, fl)
  {
    ScaleMonotone(m as real, n as real, fs);
    ScaleMonotone(m as real * fs, n as real * fs, fl);
  }

  /** Rounding and clamping keep the order of two reals. */
  lemma ClampRoundMonotone(x: real, y: real)
    requires x <= y
    ensures Clamp(Round(x), 3, 30) <= Clamp(Round(y), 3, 30)
  {
    RoundMonotone(x, y);
    ClampMonotone(Round(x), Round(y), 3, 30);
  }

  lemma ScaleMonotone(x: real, y: real, f: real)
    requires x <= y && f > 0.0
    ensures x * f <= y * f
  {
    assert y * f - x * f == (y - x) * f;
  }

  /** `recommendWordsPerDay(horizonDays, style, placement)`, the base table
      being a parameter. */
  function RecommendWordsPerDay(table: map<int, Base>, horizonDays: int, style: string,
                                level: Option<Placement.Level>): (r: Reco)
    ensures 3 <= r.min <= 30 && 3 <= r.max <= 30 && 3 <= r.suggested <= 30
    ensures r.range == Range(r.min, r.max)
  {
    var b := BaseFor(table, horizonDays);
    var fs := StyleFactor(style);
    var fl := LevelFactor(level);
    var min := Apply(b.min, fs, fl);
    var max := Apply(b.max, fs, fl);
    var suggested := Apply(b.suggested, fs, fl);
    Reco(min, max, suggested, Range(min, max))
  }

  /** With the neutral style and level each figure is the base itself,
      clamped; an unknown horizon then gives 6 to 10, suggesting 8. */
  lemma NeutralFactors(table: map<int, Base>, horizonDays: int, style: string, level: Option<Placement.Level>)
    requires style != "academic" && style != "professional"
    requires level == None || level == Some(Placement.B1)
    ensures var b := BaseFor(table, horizonDays); var r := RecommendWordsPerDay(table, horizonDays, style, level);
      r.min == Clamp(b.min, 3, 30) && r.max == Clamp(b.max, 3, 30) && r.suggested == Clamp(b.suggested, 3, 30)
    ensures horizonDays !in table ==>
      RecommendWordsPerDay(table, horizonDays, style, level) == Reco(6, 10, 8, Range(6, 10))
  {
    var b := BaseFor(table, horizonDays);
    RoundOfInt(b.min);
    RoundOfInt(b.max);
    RoundOfInt(b.suggested);
  }

  /** A professional A2 learner on an unknown horizon: 6, 10 and 8 scaled by
      0.765 give 4.59, 7.65 and 6.12, rounded to 5, 8 and 6. */
  lemma ProfessionalA2Fallback(table: map<int, Base>, horizonDays: int)
    requires horizonDays !in table
    ensures RecommendWordsPerDay(table, horizonDays, "professional", Some(Placement.A2)) == Reco(5, 8, 6, Range(5, 8))
  {
    assert Round(6.0 * 0.9 * 0.85) == 5;
    assert Round(10.0 * 0.9 * 0.85) == 8;
    assert Round(8.0 * 0.9 * 0.85) == 6;
  }

  /** An ordered base gives an ordered recommendation: the minimum never
      exceeds the maximum, and the suggestion stays between them. */
  lemma RecommendationOrdered(table: map<int, Base>, horizonDays: int, style: string, level: Option<Placement.Level>)
    ensures var b := BaseFor(table, horizonDays); var r := RecommendWordsPerDay(table, horizonDays, style, level);
      && (b.min <= b.max ==> r.min <= r.max)
      && (b.min <= b.suggested <= b.max ==> r.min <= r.suggested <= r.max)
  {
    var b := BaseFor(table, horizonDays);
    var fs := StyleFactor(style);
    var fl := LevelFactor(level);
    if b.min <= b.max {
      ApplyMonotone(b.min, b.max, StyleFactor(style), LevelFactor(level));
    }
    if b.min <= b.suggested <= b.max {
      ApplyMonotone(b.min, b.suggested, StyleFactor(style), LevelFactor(level));
      ApplyMonotone(b.suggested, b.max, StyleFactor(style), LevelFactor(level));
    }
  }
}
