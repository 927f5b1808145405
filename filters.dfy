/**
 * The WHERE fragments that both store generations write the same way:
 *
 *   (args.start_date IS NULL OR s.start_date > args.start_date)
 *   (args.end_date IS NULL OR s.end_date < args.start_date)
 *
 * The second compares the stored end date with the START filter value, not
 * with the end filter value; it is kept as written. SQL comparisons with a
 * NULL operand are not true, so a NULL column never passes a present filter.
 * Titles are compared as LIKE patterns without `%` or `_` of the user's own.
 */
module Filters {
  import opened Rows

  /** `s.start_date > start` when a start filter is given. */
  predicate StartsAfter(row: SurveyRow, start: Option<Date>)
  {
    start.None? || (row.startDate.Some? && row.startDate.value > start.value)
  }

  /** `s.end_date < start` when an END filter is given: the end filter's
      own value is never read. */
  predicate EndsBeforeStartFilter(row: SurveyRow, start: Option<Date>, end: Option<Date>)
  {
    end.None? || (start.Some? && row.endDate.Some? && row.endDate.value < start.value)
  }

  /** `needle` occurs in `hay` at position `i`. */
  predicate OccursAt(hay: string, needle: string, i: nat)
  {
    i + |needle| <= |hay| && hay[i..i + |needle|] == needle
  }

  /** `hay LIKE '%needle%'` for a needle free of wildcards. */
  predicate Contains(hay: string, needle: string)
  {
    |needle| <= |hay| && (hay[..|needle|] == needle || Contains(hay[1..], needle))
  }

  lemma {:induction false} ContainsMeansOccurs(hay: string, needle: string)
    ensures Contains(hay, needle) <==> exists i: nat :: OccursAt(hay, needle, i)
  {
    if |needle| <= |hay| {
      if hay[..|needle|] == needle {
        assert OccursAt(hay, needle, 0);
      } else if Contains(hay[1..], needle) {
        ContainsMeansOccurs(hay[1..], needle);
        var i: nat :| OccursAt(hay[1..], needle, i);
        assert hay[1..][i..i + |needle|] == hay[i + 1..i + 1 + |needle|];
        assert OccursAt(hay, needle, i + 1);
      } else {
        ContainsMeansOccurs(hay[1..], needle);
        forall i: nat | OccursAt(hay, needle, i) ensures false {
          if i != 0 {
            assert hay[1..][i - 1..i - 1 + |needle|] == hay[i..i + |needle|];
            assert OccursAt(hay[1..], needle, i - 1);
          }
        }
      }
    }
  }
}
